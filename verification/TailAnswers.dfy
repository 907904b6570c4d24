/** What each stage of the tail leaves, said of the results themselves. */
module TailAnswers {
  import opened Common
  import opened Text
  import opened Sorting
  import opened Notes
  import opened CanonicalReader
  import opened ReaderAnswers
  import opened Results
  import opened Postprocess
  import opened SearchTail

  // ---- following ----

  /** The columns of a head row under the candidate's own score, channel and provenance. */
  predicate ShowsHead(c: SearchResult, h: NoteRow, r: SearchResult) {
    && r.id == h.id && r.content == h.content && r.layer == h.layer && r.category == h.category
    && r.createdAt == h.createdAt && r.topicKey == h.topicKey && r.rootId == h.rootId && r.isHead
    && r.score == c.score && r.channel == c.channel && r.temperature == c.temperature && r.trace == c.trace
  }

  /** What a candidate becomes: its head's columns, or itself where it has none or is its own. */
  ghost predicate Becomes(t: Table, c: SearchResult, r: SearchResult) {
    exists root, topic, read ::
      && Effective(c.rootId, None, root) && Effective(c.topicKey, None, topic) && Answers(t, root, topic, read)
      && if read.note.None? || read.note.value.id == c.id then r == c else ShowsHead(c, read.note.value, r)
  }

  lemma LiveHeadShows(t: Table, root: Option<string>, topic: Option<string>, read: Read, c: SearchResult)
    requires Answers(t, root, topic, read) && read.note.Some?
    ensures ShowsHead(c, read.note.value, WithHead(c, read.note.value))
  {
  }

  lemma FollowedBecomes(t: Table, c: SearchResult)
    requires ValidTable(t) && OfRow(t, c)
    ensures Becomes(t, c, Followed(t, c))
  {
    var own :| own in t && own.id == c.id && own.rootId == c.rootId && own.topicKey == c.topicKey;
    SingleReadOfRow(t, own);
    var root, topic := RowReadExactly(t, own);
    var read := ReadLineage(t, LineageOfRow(own));
    if read.note.Some? { LiveHeadShows(t, root, topic, read, c); }
    hide ShowsHead, Effective, Answers, WithHead, SingleRead, ReadLineage;
  }

  ghost predicate AllBecome(t: Table, candidates: seq<SearchResult>, followed: seq<SearchResult>) {
    |followed| == |candidates| && forall i | 0 <= i < |candidates| :: Becomes(t, candidates[i], followed[i])
  }

  // ---- one per head ----

  /** One result per id, each the best-scored of its id, best first. */
  predicate BestPerId(items: seq<SearchResult>, distinct: seq<SearchResult>) {
    && (forall i, j | 0 <= i < j < |distinct| ::
          distinct[i].id != distinct[j].id && distinct[i].score >= distinct[j].score)
    && (forall r <- distinct :: r in items && forall x <- items | x.id == r.id :: x.score <= r.score)
    && forall x <- items :: exists r <- distinct :: r.id == x.id
  }

  lemma FirstByIdIsBest(items: seq<SearchResult>)
    requires Descending(items)
    ensures BestPerId(items, Retain(items, FirstById(items)))
  {
    KeptDescend(items, FirstById(items));
    KeptAreBest(items);
    AllIdsKept(items);
    hide FirstById, Retain, Indices, Descending;
  }

  lemma KeptDescend(items: seq<SearchResult>, keep: set<nat>)
    requires Descending(items) && keep == FirstById(items)
    ensures var d := Retain(items, keep);
            forall i, j | 0 <= i < j < |d| :: d[i].id != d[j].id && d[i].score >= d[j].score
  {
    var d, ix := Retain(items, keep), Indices(|items|, keep);
    forall i, j | 0 <= i < j < |d| ensures d[i].id != d[j].id && d[i].score >= d[j].score {
      assert ix[j] in keep && ix[i] < ix[j];
    }
  }

  lemma KeptAreBest(items: seq<SearchResult>)
    requires Descending(items)
    ensures forall r <- Retain(items, FirstById(items)) ::
              r in items && forall x <- items | x.id == r.id :: x.score <= r.score
  {
    var d, ix := Retain(items, FirstById(items)), Indices(|items|, FirstById(items));
    forall r <- d ensures r in items && forall x <- items | x.id == r.id :: x.score <= r.score {
      var k :| 0 <= k < |d| && d[k] == r;
      FirstIsBest(items, ix[k]);
    }
  }

  lemma AllIdsKept(items: seq<SearchResult>)
    ensures forall x <- items :: exists r <- Retain(items, FirstById(items)) :: r.id == x.id
  {
    forall x <- items ensures exists r <- Retain(items, FirstById(items)) :: r.id == x.id {
      var i: nat :| i < |items| && items[i] == x;
      var first := FirstOfId(items, i);
      KeptAt(items, FirstById(items), first);
    }
  }

  lemma FirstIsBest(items: seq<SearchResult>, i: nat)
    requires Descending(items) && i in FirstById(items)
    ensures i < |items| && forall x <- items | x.id == items[i].id :: x.score <= items[i].score
  {
    forall x <- items | x.id == items[i].id ensures x.score <= items[i].score {
      var j: nat :| j < |items| && items[j] == x;
    }
  }

  lemma FirstOfId(items: seq<SearchResult>, i: nat) returns (first: nat)
    requires i < |items|
    ensures first in FirstById(items) && items[first].id == items[i].id
  {
    if j: nat :| j < i && items[j].id == items[i].id {
      first := FirstOfId(items, j);
    } else {
      first := i;
    }
  }

  lemma BestPerIdOfSame(a: seq<SearchResult>, b: seq<SearchResult>, distinct: seq<SearchResult>)
    requires BestPerId(a, distinct) && forall r :: r in a <==> r in b
    ensures BestPerId(b, distinct)
  {
  }

  // ---- final scores ----

  function Total(xs: seq<real>): real {
    if xs == [] then 0.0 else xs[0] + Total(xs[1..])
  }

  function Scores(items: seq<SearchResult>): seq<real> {
    seq(|items|, i requires 0 <= i < |items| => items[i].score)
  }

  function Squares(items: seq<SearchResult>, mean: real): seq<real> {
    seq(|items|, i requires 0 <= i < |items| => (items[i].score - mean) * (items[i].score - mean))
  }

  /** The scores are spread around `mean` with this `deviation`. */
  predicate Spread(items: seq<SearchResult>, root: real -> real, mean: real, deviation: real) {
    && |items| > 0 && |items| as real * mean == Total(Scores(items))
    && deviation == root(Total(Squares(items, mean)) / |items| as real)
  }

  /** In z mode a score becomes 0.5 plus 0.15 per deviation above the mean, within the unit interval. */
  ghost predicate Rescaled(items: seq<SearchResult>, zMode: bool, root: real -> real, epsilon: real, score: real,
                           z: real) {
    if !zMode || |items| < 2 then z == score
    else
      exists mean, deviation ::
        Spread(items, root, mean, deviation) && Standardised(score, mean, deviation, epsilon, z)
  }

  /** A spread above `epsilon` rescales; a flat list stays as it is. */
  predicate Standardised(score: real, mean: real, deviation: real, epsilon: real, z: real) {
    if deviation <= epsilon || deviation <= 0.0 then z == score
    else
      var raw := 0.5 + (score - mean) / deviation * 0.15;
      z == if raw < 0.0 then 0.0 else if raw > 1.0 then 1.0 else raw
  }

  lemma {:induction false} TotalAppend(xs: seq<real>, x: real)
    ensures Total(xs + [x]) == Total(xs) + x
  {
    if xs == [] {
      assert [x][1..] == [];
    } else {
      assert (xs + [x])[1..] == xs[1..] + [x];
      TotalAppend(xs[1..], x);
    }
  }

  lemma {:induction false} SumIsTotal(items: seq<SearchResult>, f: real -> real)
    ensures Sum(items, f) == Total(seq(|items|, i requires 0 <= i < |items| => f(items[i].score)))
  {
    if items != [] {
      var front := items[..|items| - 1];
      SumIsTotal(front, f);
      var fs := seq(|front|, i requires 0 <= i < |front| => f(front[i].score));
      TotalAppend(fs, f(items[|items| - 1].score));
      assert seq(|items|, i requires 0 <= i < |items| => f(items[i].score)) == fs + [f(items[|items| - 1].score)];
    }
  }

  lemma ScoresAreSummed(items: seq<SearchResult>)
    ensures Sum(items, Itself()) == Total(Scores(items))
  {
    var f := Itself();
    SumIsTotal(items, f);
    assert seq(|items|, i requires 0 <= i < |items| => f(items[i].score)) == Scores(items);
  }

  lemma SquaresAreSummed(items: seq<SearchResult>, mean: real)
    ensures Sum(items, SquaredFrom(mean)) == Total(Squares(items, mean))
  {
    var f := SquaredFrom(mean);
    SumIsTotal(items, f);
    var squares := seq(|items|, i requires 0 <= i < |items| => f(items[i].score));
    hide Sum, Total;
    forall i | 0 <= i < |items| ensures squares[i] == Squares(items, mean)[i] {
      var d := items[i].score - mean;
      assert f(items[i].score) == d * d;
    }
    assert squares == Squares(items, mean);
  }

  lemma SpreadIs(items: seq<SearchResult>, root: real -> real)
    requires items != []
    ensures Spread(items, root, Mean(items), root(Variance(items)))
  {
    MeanTimes(items);
    VarianceIs(items);
    hide Mean, Variance, Total, Scores, Squares;
  }

  lemma MeanTimes(items: seq<SearchResult>)
    requires items != []
    ensures |items| as real * Mean(items) == Total(Scores(items))
  {
    ScoresAreSummed(items);
    hide Sum, Total, Scores, Itself;
    QuotientTimes(Sum(items, Itself()), |items| as real);
  }

  lemma VarianceIs(items: seq<SearchResult>)
    requires items != []
    ensures Variance(items) == Total(Squares(items, Mean(items))) / |items| as real
  {
    SquaresAreSummed(items, Mean(items));
    hide Sum, Total, Squares, SquaredFrom, Mean;
  }

  lemma QuotientTimes(x: real, n: real)
    requires n != 0.0
    ensures n * (x / n) == x
  {
  }

  lemma ZNormalizedIsRescaled(items: seq<SearchResult>, zMode: bool, root: real -> real, epsilon: real, i: nat)
    requires epsilon > 0.0 && i < |items|
    ensures var z := ZNormalized(items, zMode, root, epsilon);
            |z| == |items| && z[i] == items[i].(score := z[i].score)
            && Rescaled(items, zMode, root, epsilon, items[i].score, z[i].score)
  {
    if zMode && |items| >= 2 {
      SpreadIs(items, root);
      var mean, deviation := Mean(items), root(Variance(items));
      hide Spread, Mean, Variance;
      assert Standardised(items[i].score, mean, deviation, epsilon, ZNormalized(items, zMode, root, epsilon)[i].score);
    }
  }

  /** The same results under their final scores, best first. */
  ghost predicate Finalised(distinct: seq<SearchResult>, zMode: bool, root: real -> real, epsilon: real,
                            adjust: SearchResult -> real, ranked: seq<SearchResult>) {
    && |ranked| == |distinct|
    && (forall i, j | 0 <= i < j < |ranked| :: ranked[i].id != ranked[j].id && ranked[i].score >= ranked[j].score)
    && forall r <- ranked :: exists d <- distinct :: FinalOf(distinct, zMode, root, epsilon, adjust, d, r)
  }

  ghost predicate FinalOf(distinct: seq<SearchResult>, zMode: bool, root: real -> real, epsilon: real,
                          adjust: SearchResult -> real, d: SearchResult, r: SearchResult) {
    exists z :: Rescaled(distinct, zMode, root, epsilon, d.score, z) && r == d.(score := adjust(d.(score := z)))
  }

  lemma SortIsFinal(distinct: seq<SearchResult>, zMode: bool, root: real -> real, epsilon: real,
                    adjust: SearchResult -> real)
    requires epsilon > 0.0 && DistinctResultIds(distinct)
    ensures var z := ZNormalized(distinct, zMode, root, epsilon);
            Finalised(distinct, zMode, root, epsilon, adjust, Sort(Rescored(z, adjust), BY_SCORE))
  {
    hide ZNormalized, FinalOf, Sort, Rescored, Finalised;
    var scored := Rescored(ZNormalized(distinct, zMode, root, epsilon), adjust);
    FinalLength(distinct, zMode, root, epsilon, adjust);
    forall i: nat | i < |distinct| ensures FinalOf(distinct, zMode, root, epsilon, adjust, distinct[i], scored[i]) {
      FinalAt(distinct, zMode, root, epsilon, adjust, i);
    }
    SortedIsFinal(distinct, scored, zMode, root, epsilon, adjust);
  }

  lemma FinalLength(distinct: seq<SearchResult>, zMode: bool, root: real -> real, epsilon: real,
                    adjust: SearchResult -> real)
    requires epsilon > 0.0
    ensures var scored := Rescored(ZNormalized(distinct, zMode, root, epsilon), adjust);
            |scored| == |distinct| && forall i | 0 <= i < |distinct| :: scored[i].id == distinct[i].id
  {
    ZLength(distinct, zMode, root, epsilon);
    hide ZNormalized;
  }

  lemma SortedIsFinal(distinct: seq<SearchResult>, scored: seq<SearchResult>, zMode: bool, root: real -> real,
                      epsilon: real, adjust: SearchResult -> real)
    requires |scored| == |distinct| && DistinctResultIds(distinct)
    requires forall i | 0 <= i < |distinct| :: scored[i].id == distinct[i].id
    requires forall i: nat | i < |distinct| :: FinalOf(distinct, zMode, root, epsilon, adjust, distinct[i], scored[i])
    ensures Finalised(distinct, zMode, root, epsilon, adjust, Sort(scored, BY_SCORE))
  {
    hide FinalOf, Sort;
    SortByScore(scored);
    forall r <- Sort(scored, BY_SCORE)
      ensures exists d <- distinct :: FinalOf(distinct, zMode, root, epsilon, adjust, d, r)
    {
      var i: nat :| i < |scored| && scored[i] == r;
      assert distinct[i] in distinct;
    }
  }

  lemma FinalAt(distinct: seq<SearchResult>, zMode: bool, root: real -> real, epsilon: real,
                adjust: SearchResult -> real, i: nat)
    requires epsilon > 0.0 && i < |distinct|
    ensures var z := ZNormalized(distinct, zMode, root, epsilon);
            |z| == |distinct| && FinalOf(distinct, zMode, root, epsilon, adjust, distinct[i], Rescored(z, adjust)[i])
  {
    ZNormalizedIsRescaled(distinct, zMode, root, epsilon, i);
    hide ZNormalized, Rescaled;
  }

  lemma ZLength(items: seq<SearchResult>, zMode: bool, root: real -> real, epsilon: real)
    requires epsilon > 0.0
    ensures var z := ZNormalized(items, zMode, root, epsilon);
            |z| == |items| && forall i | 0 <= i < |z| :: z[i].id == items[i].id
  {
  }

  // ---- one per topic ----

  predicate HasTopic(r: SearchResult, topic: string) {
    r.topicKey == Some(topic) && topic != ""
  }

  /** The exact channel beats any other; within the same, the later timestamp does. */
  ghost predicate Better(a: SearchResult, b: SearchResult) {
    if a.channel == Some("exact") && b.channel != Some("exact") then true
    else if b.channel == Some("exact") && a.channel != Some("exact") then false
    else exists k: nat :: LessAt(b.createdAt.GetOr(""), a.createdAt.GetOr(""), k)
  }

  /** No result of the topic is better, and those as good stand behind. */
  ghost predicate Leads(items: seq<SearchResult>, topic: string, i: nat) {
    && i < |items| && HasTopic(items[i], topic)
    && forall j: nat | j < |items| && HasTopic(items[j], topic) ::
         !Better(items[j], items[i]) && (j < i ==> Better(items[i], items[j]))
  }

  ghost predicate OncePerTopic(items: seq<SearchResult>, deduped: seq<SearchResult>) {
    && (forall i, j | 0 <= i < j < |deduped| :: deduped[i].id != deduped[j].id && deduped[i].score >= deduped[j].score)
    && (forall i, j, topic | 0 <= i < j < |deduped| && HasTopic(deduped[i], topic) :: !HasTopic(deduped[j], topic))
    && (forall r <- deduped :: r in items)
    && (forall r <- items | r.topicKey.GetOr("") == "" :: r in deduped)
    && forall r <- items, topic | HasTopic(r, topic) ::
         exists i: nat | i < |items| :: Leads(items, topic, i) && items[i] in deduped
  }

  lemma BetterExactly(a: SearchResult, b: SearchResult)
    ensures Outranks(a, b) <==> Better(a, b)
  {
    StrLtExactly(b.createdAt.GetOr(""), a.createdAt.GetOr(""));
  }

  lemma WinsLeads(items: seq<SearchResult>, topic: string, i: nat)
    requires i < |items| && HasTopic(items[i], topic) && Wins(items, i)
    ensures Leads(items, topic, i)
  {
    forall j: nat | j < |items| && HasTopic(items[j], topic)
      ensures !Better(items[j], items[i]) && (j < i ==> Better(items[i], items[j]))
    {
      BetterExactly(items[j], items[i]);
      BetterExactly(items[i], items[j]);
      assert TopicOf(items[j]) == TopicOf(items[i]);
    }
    hide Better, Outranks;
  }

  lemma TopicDedupOnce(items: seq<SearchResult>)
    requires DistinctResultIds(items)
    ensures OncePerTopic(items, TopicDeduped(items))
  {
    TopicDedupIsExact(items);
    DedupedIdsDistinct(items);
    var d := TopicDeduped(items);
    hide TopicDeduped, Leads, Wins, Better;
    TopicsStandApart(d);
    TopicFreeStay(items, d);
    LeadersStay(items, d);
    hide OnePerTopic, HasTopic, TopicOf, TopicsOf;
  }

  lemma TopicsStandApart(d: seq<SearchResult>)
    requires OnePerTopic(d)
    ensures forall i, j, topic | 0 <= i < j < |d| && HasTopic(d[i], topic) :: !HasTopic(d[j], topic)
  {
  }

  lemma TopicFreeStay(items: seq<SearchResult>, d: seq<SearchResult>)
    requires forall r <- items | TopicOf(r).None? :: r in d
    ensures forall r <- items | r.topicKey.GetOr("") == "" :: r in d
  {
  }

  lemma LeadersStay(items: seq<SearchResult>, d: seq<SearchResult>)
    requires forall r <- items | TopicOf(r).Some? ::
               exists i: nat | i < |items| :: TopicOf(items[i]) == TopicOf(r) && Wins(items, i) && items[i] in d
    ensures forall r <- items, topic | HasTopic(r, topic) ::
              exists i: nat | i < |items| :: Leads(items, topic, i) && items[i] in d
  {
    hide Leads, Wins;
    forall r <- items, topic | HasTopic(r, topic)
      ensures exists i: nat | i < |items| :: Leads(items, topic, i) && items[i] in d
    {
      var i: nat :| i < |items| && TopicOf(items[i]) == TopicOf(r) && Wins(items, i) && items[i] in d;
      WinsLeads(items, topic, i);
    }
  }

  lemma DedupedIdsDistinct(items: seq<SearchResult>)
    requires DistinctResultIds(items)
    ensures DistinctResultIds(TopicDeduped(items))
  {
    hide Sort, TopicSurvivors;
    SortByScore(Retain(items, TopicSurvivors(items)));
  }

  /** Exactly the topics of the list are reported as seen. */
  ghost predicate SeenExactly(items: seq<SearchResult>, seen: set<string>) {
    forall topic :: topic in seen <==> exists r <- items :: HasTopic(r, topic)
  }

  lemma TopicsAreSeen(items: seq<SearchResult>)
    ensures SeenExactly(items, TopicsOf(items))
  {
  }

  // ---- the limit ----

  /** As many as there are room for, and nothing left out scores above anything kept. */
  predicate Leading(items: seq<SearchResult>, limit: nat, top: seq<SearchResult>) {
    && |top| == (if |items| < limit then |items| else limit)
    && (forall i | 0 <= i < |top| :: top[i] == items[i])
    && forall i, j | 0 <= i < |top| <= j < |items| :: top[i].score >= items[j].score
  }

  lemma TopLeads(items: seq<SearchResult>, limit: nat)
    requires Descending(items)
    ensures Leading(items, limit, Top(items, limit))
  {
  }

  // ---- the category cap ----

  predicate SameCategory(a: SearchResult, b: SearchResult) {
    (if a.category.Some? then a.category.value else a.layer) == if b.category.Some? then b.category.value else b.layer
  }

  /** How many of the first `n` share the category of `r`. */
  function Fellows(items: seq<SearchResult>, n: nat, r: SearchResult): nat
    requires n <= |items|
  {
    if n == 0 then 0 else Fellows(items, n - 1, r) + if SameCategory(items[n - 1], r) then 1 else 0
  }

  /** Three fifths of the list, rounded down, but at least two. */
  function Share(n: nat): nat {
    if n * 3 / 5 < 2 then 2 else n * 3 / 5
  }

  /** The results at these positions, in order. */
  predicate PickedAt(items: seq<SearchResult>, at: seq<nat>, picked: seq<SearchResult>) {
    && |picked| == |at|
    && (forall k | 0 <= k < |at| :: at[k] < |items| && picked[k] == items[at[k]])
    && forall j, k | 0 <= j < k < |at| :: at[j] < at[k]
  }

  /** Of a list of more than two, in more than one category, each category keeps its first results up to its share. */
  ghost predicate Capped(items: seq<SearchResult>, kept: seq<SearchResult>) {
    if |items| <= 2 || (forall i, j | 0 <= i < |items| && 0 <= j < |items| :: SameCategory(items[i], items[j]))
    then kept == items
    else exists at: seq<nat> :: PickedAt(items, at, kept) && FirstOfEach(items, at, Share(|items|))
  }

  predicate FirstOfEach(items: seq<SearchResult>, at: seq<nat>, share: nat) {
    forall i: nat | i < |items| :: i in at <==> Fellows(items, i, items[i]) < share
  }

  lemma {:induction false} FellowsAreAhead(items: seq<SearchResult>, n: nat, i: nat)
    requires n <= i < |items|
    ensures |set j: nat | j < n && CategoryOf(items[j]) == CategoryOf(items[i])| == Fellows(items, n, items[i])
  {
    var ahead := set j: nat | j < n && CategoryOf(items[j]) == CategoryOf(items[i]);
    if n == 0 {
      assert ahead == {};
    } else {
      FellowsAreAhead(items, n - 1, i);
      var fewer := set j: nat | j < n - 1 && CategoryOf(items[j]) == CategoryOf(items[i]);
      assert n - 1 !in fewer;
      if CategoryOf(items[n - 1]) == CategoryOf(items[i]) {
        assert ahead == fewer + {n - 1};
      } else {
        assert ahead == fewer;
      }
    }
  }

  lemma AheadOfIsFellows(items: seq<SearchResult>, i: nat)
    requires i < |items| && Descending(items)
    ensures |AheadOf(items, i)| == Fellows(items, i, items[i])
  {
    FellowsAreAhead(items, i, i);
    AheadIsEarlier(items, i);
    hide AheadOf, Descending, CategoryOf, Fellows;
  }

  lemma AheadIsEarlier(items: seq<SearchResult>, i: nat)
    requires i < |items| && Descending(items)
    ensures AheadOf(items, i) == set j: nat | j < i && CategoryOf(items[j]) == CategoryOf(items[i])
  {
    hide CategoryOf;
    assert forall j | 0 <= j < i :: items[j].score >= items[i].score;
    assert forall j | i < j < |items| :: items[j].score <= items[i].score;
  }

  lemma ShareIsCap(n: nat)
    ensures CapFor(n, DIVERSITY_RATIO) == Share(n)
  {
    var x := n as real * 0.6;
    var q := n * 3 / 5;
    assert q as real <= x < (q + 1) as real;
    assert x.Floor == q;
  }

  lemma DiversifiedIsCapped(items: seq<SearchResult>)
    requires Descending(items)
    ensures Capped(items, Diversified(items, DIVERSITY_RATIO))
  {
    ShareIsCap(|items|);
    hide Retain, Indices, Descending;
    assert forall i, j | 0 <= i < |items| && 0 <= j < |items| ::
        SameCategory(items[i], items[j]) <==> CategoryOf(items[i]) == CategoryOf(items[j]);
    if CapApplies(items, DIVERSITY_RATIO) {
      RetainPicks(items, WithinCap(items, Share(|items|)));
      WithinIsFirst(items, Share(|items|));
      hide PickedAt, FirstOfEach, WithinCap, Share, SameCategory, CategoryOf;
    }
  }

  lemma RetainPicks(items: seq<SearchResult>, keep: set<nat>)
    ensures PickedAt(items, Indices(|items|, keep), Retain(items, keep))
  {
  }

  lemma WithinIsFirst(items: seq<SearchResult>, share: nat)
    requires Descending(items)
    ensures FirstOfEach(items, Indices(|items|, WithinCap(items, share)), share)
  {
    var keep := WithinCap(items, share);
    forall i: nat | i < |items| ensures i in Indices(|items|, keep) <==> Fellows(items, i, items[i]) < share {
      AheadOfIsFellows(items, i);
      assert i in keep <==> Fellows(items, i, items[i]) < share;
    }
  }

  // ---- labels and the minimum ----

  predicate LabelledAs(r: SearchResult, x: SearchResult, channel: string, activity: SearchResult -> Activity) {
    && x.id == r.id && x.content == r.content && x.layer == r.layer && x.category == r.category && x.score == r.score
    && x.createdAt == r.createdAt && x.topicKey == r.topicKey && x.rootId == r.rootId && x.isHead == r.isHead
    && x.trace == r.trace
    && x.channel == (if r.channel.Some? then r.channel else Some(channel))
    && var a := activity(r.(channel := x.channel));
       x.temperature == Some(if a.recallCount >= 3 && a.daysSince <= 30 then "hot"
                             else if a.recallCount >= 1 && a.daysSince <= 180 then "warm" else "cold")
  }

  /** Returned are, in order and labelled, all results if no positive minimum is set, and else those that reach it. */
  ghost predicate Returned(spread: seq<SearchResult>, channel: string, activity: SearchResult -> Activity,
                           minScore: real,
                           items: seq<SearchResult>) {
    exists at: seq<nat> :: ShownAt(spread, channel, activity, at, items) && Reaching(spread, minScore, at)
  }

  predicate ShownAt(spread: seq<SearchResult>, channel: string, activity: SearchResult -> Activity, at: seq<nat>,
                    items: seq<SearchResult>) {
    && |items| == |at| && (forall j, k | 0 <= j < k < |at| :: at[j] < at[k])
    && forall k | 0 <= k < |at| :: at[k] < |spread| && LabelledAs(spread[at[k]], items[k], channel, activity)
  }

  predicate Reaching(spread: seq<SearchResult>, minScore: real, at: seq<nat>) {
    forall i: nat | i < |spread| :: i in at <==> minScore <= 0.0 || spread[i].score >= minScore
  }

  lemma LabelledIs(spread: seq<SearchResult>, channel: string, activity: SearchResult -> Activity, i: nat)
    requires i < |spread|
    ensures LabelledAs(spread[i], Labelled(spread, channel, activity)[i], channel, activity)
  {
  }

  lemma FilterReturns(spread: seq<SearchResult>, channel: string, activity: SearchResult -> Activity, minScore: real)
    ensures Returned(spread, channel, activity, minScore, AboveMin(Labelled(spread, channel, activity), minScore))
  {
    var labelled := Labelled(spread, channel, activity);
    var keep := set i: nat | i < |labelled| && (minScore <= 0.0 || labelled[i].score >= minScore);
    if minScore <= 0.0 {
      RetainAll(labelled, keep);
    } else {
      assert keep == set i: nat | i < |labelled| && labelled[i].score >= minScore;
    }
    var items := Retain(labelled, keep);
    assert items == AboveMin(labelled, minScore);
    KeptAreShown(spread, channel, activity, keep);
    KeptReach(spread, channel, activity, minScore, keep);
    hide AboveMin, Labelled, Retain, ShownAt, Reaching, Indices;
  }

  lemma KeptAreShown(spread: seq<SearchResult>, channel: string, activity: SearchResult -> Activity, keep: set<nat>)
    ensures var labelled := Labelled(spread, channel, activity);
            ShownAt(spread, channel, activity, Indices(|spread|, keep), Retain(labelled, keep))
  {
    var labelled := Labelled(spread, channel, activity);
    forall i: nat | i < |spread| ensures LabelledAs(spread[i], labelled[i], channel, activity) {
      LabelledIs(spread, channel, activity, i);
    }
    hide Labelled, LabelledAs;
  }

  lemma KeptReach(spread: seq<SearchResult>, channel: string, activity: SearchResult -> Activity, minScore: real,
                  keep: set<nat>)
    requires var labelled := Labelled(spread, channel, activity);
             keep == set i: nat | i < |labelled| && (minScore <= 0.0 || labelled[i].score >= minScore)
    ensures Reaching(spread, minScore, Indices(|spread|, keep))
  {
    forall i: nat | i < |spread| ensures i in keep <==> minScore <= 0.0 || spread[i].score >= minScore {
      LabelledIs(spread, channel, activity, i);
    }
    hide Labelled;
  }
}
