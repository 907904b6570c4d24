/** The post-scoring tail of `search_inner`: one result vector, changed in place pass after pass. */
module SearchTail {
  import opened Common
  import opened Text
  import opened Sorting
  import opened Notes
  import opened CanonicalReader
  import opened ReaderLaws
  import opened Results
  import opened Postprocess
  import opened ActivationGraph
  import opened SpreadActivation

  const DEFAULT_LIMIT: nat := 5
  const DIVERSITY_RATIO: real := 0.6
  const Z_SCORE_UNIT_SCALE: real := 0.15

  // ---- following results to their heads ----

  /** `apply_canonical_head`: the head's fields under the result's own score and channel. */
  function Followed(t: Table, r: SearchResult): SearchResult {
    var read := SingleRead(t, Seed("__single__", Some(r.id), r.rootId, r.topicKey));
    if read.note.None? || read.note.value.id == r.id then r else WithHead(r, read.note.value)
  }

  function WithHead(r: SearchResult, h: NoteRow): SearchResult {
    r.(id := h.id, content := h.content, layer := h.layer, category := h.category, createdAt := h.createdAt,
       topicKey := h.topicKey, rootId := h.rootId, isHead := h.isHead && StateIsHead(h.evolutionState))
  }

  /** A scored candidate still carries the identity of the row it was built from. */
  predicate OfRow(t: Table, r: SearchResult) {
    exists row <- t :: row.id == r.id && row.rootId == r.rootId && row.topicKey == r.topicKey
  }

  lemma SingleReadOfRow(t: Table, row: NoteRow)
    requires ValidTable(t) && row in t
    ensures SingleRead(t, Seed("__single__", Some(row.id), row.rootId, row.topicKey)) ==
            ReadLineage(t, LineageOfRow(row))
  {
    FindOwn(t, row);
    var single := SingleSeed(Seed("__single__", Some(row.id), row.rootId, row.topicKey));
    assert Normalized(Some(row.id)) == Some(row.id);
    assert Complete(single, None) == LineageOfRow(row);
    assert LineageOfId(t, row.id) == Some(LineageOfRow(row));
    assert Complete(single, Some(LineageOfRow(row))) == LineageOfRow(row);
  }

  /** Following lands on a note that resolves to itself, which is what activation needs of its roots. */
  lemma FollowedIsOwnHead(t: Table, r: SearchResult)
    requires ValidTable(t) && Idempotent(t) && OfRow(t, r)
    ensures forall row <- t | row.id == Followed(t, r).id :: Resolve(t, row).id == row.id
  {
    var own :| own in t && own.id == r.id && own.rootId == r.rootId && own.topicKey == r.topicKey;
    SingleReadOfRow(t, own);
    ResolveStaysInTable(t, own);
    var head := Resolve(t, own);
    assert Followed(t, r).id == head.id;
    forall row <- t | row.id == head.id ensures Resolve(t, row).id == row.id {
      SameIdSameRow(t, row, head);
    }
  }

  function FollowAll(t: Table, items: seq<SearchResult>): (r: seq<SearchResult>)
    ensures |r| == |items| && forall i | 0 <= i < |items| :: r[i] == Followed(t, items[i])
  {
    seq(|items|, i requires 0 <= i < |items| => Followed(t, items[i]))
  }

  // ---- normalising scores ----

  function Sum(items: seq<SearchResult>, f: real -> real): real {
    if items == [] then 0.0 else Sum(items[..|items| - 1], f) + f(items[|items| - 1].score)
  }

  function Itself(): real -> real {
    x => x
  }

  function SquaredFrom(mean: real): real -> real {
    x => (x - mean) * (x - mean)
  }

  function Mean(items: seq<SearchResult>): real
    requires items != []
  {
    Sum(items, Itself()) / |items| as real
  }

  function Variance(items: seq<SearchResult>): real
    requires items != []
  {
    var mean := Mean(items);
    Sum(items, SquaredFrom(mean)) / |items| as real
  }

  function NormalizedScore(score: real, mean: real, sd: real): real
    requires sd > 0.0
  {
    Clamp(0.5 + (score - mean) / sd * Z_SCORE_UNIT_SCALE, 0.0, 1.0)
  }

  function Rescored(items: seq<SearchResult>, f: SearchResult -> real): (r: seq<SearchResult>)
    ensures |r| == |items| && forall i | 0 <= i < |items| :: r[i] == items[i].(score := f(items[i]))
  {
    seq(|items|, i requires 0 <= i < |items| => items[i].(score := f(items[i])))
  }

  /** Z mode rescales only two or more results whose spread is above `epsilon`; `root` is the square root. */
  function ZNormalized(items: seq<SearchResult>, zMode: bool, root: real -> real, epsilon: real): seq<SearchResult>
    requires epsilon > 0.0
  {
    if !zMode || |items| < 2 || root(Variance(items)) <= epsilon then items
    else
      var mean, sd := Mean(items), root(Variance(items));
      Rescored(items, (r: SearchResult) => if sd > 0.0 then NormalizedScore(r.score, mean, sd) else r.score)
  }

  /** Rescaling stays in the unit interval and never reverses two results. */
  lemma NormalizingKeepsOrder(a: real, b: real, mean: real, sd: real)
    requires sd > 0.0 && a <= b
    ensures 0.0 <= NormalizedScore(a, mean, sd) <= NormalizedScore(b, mean, sd) <= 1.0
  {
    var za, zb := (a - mean) / sd, (b - mean) / sd;
    assert zb - za == (b - a) / sd;
    assert (b - a) / sd >= 0.0;
  }

  // ---- labels ----

  /** How often and how long ago a result was recalled, as of now. */
  datatype Activity = Activity(recallCount: int, daysSince: int)

  function TemperatureOf(a: Activity): string {
    if a.recallCount >= 3 && a.daysSince <= 30 then "hot"
    else if a.recallCount >= 1 && a.daysSince <= 180 then "warm"
    else "cold"
  }

  function Labelled(items: seq<SearchResult>, channel: string, activity: SearchResult -> Activity)
    : (r: seq<SearchResult>)
    ensures |r| == |items|
  {
    var channelled :=
        seq(|items|, i requires 0 <= i < |items| => items[i].(channel := items[i].channel.Or(Some(channel))));
    seq(|items|, i requires 0 <= i < |items| =>
      channelled[i].(temperature := Some(TemperatureOf(activity(channelled[i])))))
  }

  /** Labelling fills the gaps and touches neither identity nor rank. */
  lemma LabelsKeepRanking(items: seq<SearchResult>, channel: string, activity: SearchResult -> Activity)
    ensures forall i | 0 <= i < |items| ::
              var r := Labelled(items, channel, activity)[i];
              && r.channel.Some? && r.temperature.Some? && (items[i].channel.Some? ==> r.channel == items[i].channel)
              && r.(channel := items[i].channel, temperature := items[i].temperature) == items[i]
  {
  }

  // ---- the vector ----

  class ResultList {
    var items: seq<SearchResult>

    constructor (items: seq<SearchResult>)
      ensures this.items == items
    {
      this.items := items;
    }

    /** `follow_results_to_canonical_heads`. */
    method FollowToHeads(t: Table)
      requires DistinctIds(t)
      modifies this
      ensures items == FollowAll(t, old(items))
    {
      hide SingleRead, WithHead, DistinctIds;
      var i := 0;
      while i < |items|
        invariant |items| == |old(items)| && 0 <= i <= |items|
        invariant forall k | 0 <= k < i :: items[k] == Followed(t, old(items)[k])
        invariant forall k | i <= k < |items| :: items[k] == old(items)[k]
      {
        var r := items[i];
        var read := HydrateHead(t, Some(r.id), r.rootId, r.topicKey);
        if read.note.Some? && read.note.value.id != r.id {
          items := items[i := WithHead(r, read.note.value)];
        }
        i := i + 1;
      }
    }

    method SortByScore()
      modifies this
      ensures items == Sort(old(items), BY_SCORE)
    {
      items := Sort(items, BY_SCORE);
    }

    /** `dedupe_results_by_id`. */
    method DedupeById()
      modifies this
      ensures items == Retain(old(items), FirstById(old(items)))
    {
      var seen: set<string> := {};
      var keep: set<nat> := {};
      for i := 0 to |items|
        invariant items == old(items)
        invariant seen == set k: nat | k < i :: items[k].id
        invariant keep == set k: nat | k < i && forall j: nat | j < k :: items[j].id != items[k].id
      {
        if items[i].id !in seen {
          keep := keep + {i};
        }
        seen := seen + {items[i].id};
      }
      assert keep == FirstById(items);
      items := RetainPass(items, keep);
    }

    /** `normalize_result_scores`. */
    method NormalizeScores(zMode: bool, root: real -> real, epsilon: real)
      requires epsilon > 0.0
      modifies this
      ensures items == ZNormalized(old(items), zMode, root, epsilon)
    {
      if !zMode || |items| < 2 {
        return;
      }
      var sum := SumLoop(items, Itself());
      var mean := sum / |items| as real;
      assert mean == Mean(items);
      var squares := SumLoop(items, SquaredFrom(mean));
      var sd := root(squares / |items| as real);
      assert sd == root(Variance(items));
      if sd <= epsilon {
        return;
      }
      Rescore((r: SearchResult) => if sd > 0.0 then NormalizedScore(r.score, mean, sd) else r.score);
    }

    /** Rewrite every score in place. */
    method Rescore(f: SearchResult -> real)
      modifies this
      ensures items == Rescored(old(items), f)
    {
      var i := 0;
      while i < |items|
        invariant |items| == |old(items)| && 0 <= i <= |items|
        invariant forall k | 0 <= k < i :: items[k] == old(items)[k].(score := f(old(items)[k]))
        invariant forall k | i <= k < |items| :: items[k] == old(items)[k]
      {
        items := items[i := items[i].(score := f(items[i]))];
        i := i + 1;
      }
    }

    /** `dedupe_results_by_topic_key`. */
    method DedupeByTopicKey() returns (seenTopics: set<string>)
      modifies this
      ensures items == TopicDeduped(old(items))
      ensures seenTopics == TopicsOf(old(items))
    {
      var topicBest := CollectTopicBest(items);
      seenTopics := topicBest.Keys;
      var noTopic := set i: nat | i < |items| && TopicOf(items[i]).None?;
      var keep := topicBest.Values + noTopic;
      BestAreSurvivors(items, topicBest);
      items := RetainPass(items, keep);
      items := Sort(items, BY_SCORE);
    }

    method Truncate(limit: nat)
      modifies this
      ensures items == Top(old(items), limit)
    {
      if |items| > limit {
        items := items[..limit];
      }
    }

    /** `enforce_type_diversity`. */
    method EnforceTypeDiversity(maxRatio: real)
      modifies this
      ensures items == Diversified(old(items), maxRatio)
    {
      if |items| <= 2 || maxRatio >= 1.0 {
        return;
      }
      var categories := set r <- items :: CategoryOf(r);
      if |categories| <= 1 {
        OneCategory(items, categories);
        return;
      }
      ManyCategories(items, categories);
      var cap := CapFor(|items|, maxRatio);
      var excluded := CollectExcluded(items, categories, cap);
      var keep := set i: nat | i < |items| && i !in excluded;
      assert keep == WithinCap(items, cap);
      items := RetainPass(items, keep);
    }

    /** Append what activation found behind the direct results. */
    method Activate(g: Graph, limit: nat, before: Diagnostics) returns (after: Diagnostics)
      requires g.direct == items && ValidTable(g.notes) && DistinctResultIds(items)
      modifies this
      ensures SpreadContract(g, limit, items)
      ensures |g.direct| <= |items| && Accounted(before, after, items[|g.direct|..])
    {
      items, after := SpreadActivation.Run(g, limit, before);
    }

    /** `ensure_default_channel` and `add_temperature_labels`. */
    method Label(channel: string, activity: SearchResult -> Activity)
      modifies this
      ensures items == Labelled(old(items), channel, activity)
    {
      var i := 0;
      while i < |items|
        invariant |items| == |old(items)| && 0 <= i <= |items|
        invariant forall k | 0 <= k < i ::
            items[k] == old(items)[k].(channel := old(items)[k].channel.Or(Some(channel)))
        invariant forall k | i <= k < |items| :: items[k] == old(items)[k]
      {
        if items[i].channel.None? {
          items := items[i := items[i].(channel := Some(channel))];
        }
        i := i + 1;
      }
      ghost var channelled := items;
      i := 0;
      while i < |items|
        invariant |items| == |channelled| && 0 <= i <= |items|
        invariant forall k | 0 <= k < i ::
            items[k] == channelled[k].(temperature := Some(TemperatureOf(activity(channelled[k]))))
        invariant forall k | i <= k < |items| :: items[k] == channelled[k]
      {
        items := items[i := items[i].(temperature := Some(TemperatureOf(activity(items[i]))))];
        i := i + 1;
      }
      assert channelled == seq(|old(items)|, k requires 0 <= k < |old(items)| =>
        old(items)[k].(channel := old(items)[k].channel.Or(Some(channel))));
    }

    /** `results.retain(|r| r.score >= min_score)`, when a minimum is set. */
    method FilterMinScore(minScore: real)
      modifies this
      ensures items == AboveMin(old(items), minScore)
    {
      if minScore > 0.0 {
        items := RetainPass(items, set i: nat | i < |items| && items[i].score >= minScore);
      }
    }
  }

  function AboveMin(items: seq<SearchResult>, minScore: real): seq<SearchResult> {
    if minScore > 0.0 then Retain(items, set i: nat | i < |items| && items[i].score >= minScore) else items
  }

  method SumLoop(items: seq<SearchResult>, f: real -> real) returns (sum: real)
    ensures sum == Sum(items, f)
  {
    sum := 0.0;
    for i := 0 to |items|
      invariant sum == Sum(items[..i], f)
    {
      assert items[..i + 1][..i] == items[..i];
      sum := sum + f(items[i].score);
    }
    assert items[..|items|] == items;
  }

  /** The index loop of the topic pass: the best position seen so far per topic. */
  method CollectTopicBest(items: seq<SearchResult>) returns (topicBest: map<string, nat>)
    ensures topicBest.Keys == TopicsOf(items)
    ensures forall t <- topicBest :: topicBest[t] < |items| && TopicOf(items[topicBest[t]]) == Some(t)
                                     && SurvivesAmong(items, |items|, topicBest[t])
  {
    hide SurvivesAmong, Outranks, TopicsOf;
    NoTopics(items);
    topicBest := map[];
    for i := 0 to |items|
      invariant topicBest.Keys == TopicsOf(items[..i])
      invariant forall t <- topicBest :: topicBest[t] < i && TopicOf(items[topicBest[t]]) == Some(t)
                                         && SurvivesAmong(items, i, topicBest[t])
    {
      TopicsStep(items, i);
      var topic := TopicOf(items[i]);
      forall t <- topicBest | Some(t) != topic ensures SurvivesAmong(items, i + 1, topicBest[t]) {
        KeepsHolding(items, i, topicBest[t]);
      }
      if topic.Some? {
        if topic.value in topicBest {
          ghost var best := Challenge(items, i, topicBest[topic.value]);
          if Outranks(items[i], items[topicBest[topic.value]]) {
            topicBest := topicBest[topic.value := i];
          }
        } else {
          FirstOfTopic(items, i);
          topicBest := topicBest[topic.value := i];
        }
      }
    }
    assert items[..|items|] == items;
  }

  lemma NoTopics(items: seq<SearchResult>)
    ensures TopicsOf(items[..0]) == {}
  {
  }

  lemma TopicsStep(items: seq<SearchResult>, i: nat)
    requires i < |items|
    ensures TopicsOf(items[..i + 1]) == TopicsOf(items[..i]) + if TopicOf(items[i]).Some?
            then {TopicOf(items[i]).value} else {}
  {
    assert items[..i + 1] == items[..i] + [items[i]];
  }

  lemma KeepsHolding(items: seq<SearchResult>, i: nat, holder: nat)
    requires holder < i < |items| && TopicOf(items[i]) != TopicOf(items[holder]) && SurvivesAmong(items, i, holder)
    ensures SurvivesAmong(items, i + 1, holder)
  {
  }

  lemma FirstOfTopic(items: seq<SearchResult>, i: nat)
    requires i < |items| && TopicOf(items[i]).Some? && TopicOf(items[i]).value !in TopicsOf(items[..i])
    ensures SurvivesAmong(items, i + 1, i)
  {
    forall j: nat | j < i ensures TopicOf(items[j]) != TopicOf(items[i]) {
      assert items[..i][j] in items[..i];
    }
  }

  lemma BestAreSurvivors(items: seq<SearchResult>, topicBest: map<string, nat>)
    requires topicBest.Keys == TopicsOf(items)
    requires forall t <- topicBest :: topicBest[t] < |items| && TopicOf(items[topicBest[t]]) == Some(t)
                                      && SurvivesAmong(items, |items|, topicBest[t])
    ensures topicBest.Values + (set i: nat | i < |items| && TopicOf(items[i]).None?) == TopicSurvivors(items)
  {
    forall i: nat | i < |items| && TopicOf(items[i]).Some?
      ensures i in topicBest.Values <==> SurvivesAmong(items, |items|, i)
    {
      var t := TopicOf(items[i]).value;
      assert items[i] in items && t in topicBest;
      assert SurvivesAmong(items, |items|, i) ==> topicBest[t] == i;
    }
  }

  lemma OneCategory(items: seq<SearchResult>, categories: set<string>)
    requires categories == (set r <- items :: CategoryOf(r)) && |categories| <= 1
    ensures forall i, j | 0 <= i < |items| && 0 <= j < |items| :: CategoryOf(items[i]) == CategoryOf(items[j])
  {
    forall i, j | 0 <= i < |items| && 0 <= j < |items| ensures CategoryOf(items[i]) == CategoryOf(items[j]) {
      assert items[i] in items && items[j] in items;
      var a, b := CategoryOf(items[i]), CategoryOf(items[j]);
      if a != b {
        assert {a, b} <= categories;
        Subset({a, b}, categories);
      }
    }
  }

  lemma Subset(a: set<string>, b: set<string>)
    requires a <= b
    ensures |a| <= |b|
  {
    if a != {} {
      var x :| x in a;
      Subset(a - {x}, b - {x});
    }
  }

  lemma ManyCategories(items: seq<SearchResult>, categories: set<string>)
    requires categories == (set r <- items :: CategoryOf(r)) && |categories| > 1
    ensures exists i: nat, j: nat | i < |items| && j < |items| :: CategoryOf(items[i]) != CategoryOf(items[j])
  {
    var a :| a in categories;
    assert categories != {a};
    var b :| b in categories && b != a;
    var i: nat :| i < |items| && CategoryOf(items[i]) == a;
    var j: nat :| j < |items| && CategoryOf(items[j]) == b;
  }

  /** The per-category loop: everything behind the cap in score order is excluded. */
  method CollectExcluded(items: seq<SearchResult>, categories: set<string>, cap: nat) returns (excluded: set<nat>)
    requires categories == set r <- items :: CategoryOf(r)
    ensures excluded == set i: nat | i < |items| && i !in WithinCap(items, cap)
  {
    excluded := {};
    var rest := categories;
    while rest != {}
      invariant rest <= categories
      invariant excluded == set i: nat | i < |items| && CategoryOf(items[i]) !in rest && i !in WithinCap(items, cap)
    {
      var c :| c in rest;
      var dropped := BehindCap(items, c, cap);
      excluded := excluded + dropped;
      rest := rest - {c};
    }
  }

  method BehindCap(items: seq<SearchResult>, c: string, cap: nat) returns (dropped: set<nat>)
    ensures dropped == InCategory(items, c) - WithinCap(items, cap)
  {
    dropped := {};
    var order := RankedPositions(items, c);
    SortedPositionsRank(items, c);
    if |order| > cap {
      dropped := set p | cap <= p < |order| :: order[p];
    }
    forall i ensures i in dropped <==> i in InCategory(items, c) - WithinCap(items, cap) {
      if i in InCategory(items, c) {
        assert i in order;
        var p :| 0 <= p < |order| && order[p] == i;
        RankIsPosition(items, c, order, p);
        forall q | 0 <= q < |order| && order[q] == i ensures q == p { RankIsPosition(items, c, order, q); }
      }
    }
  }

  function Top(items: seq<SearchResult>, limit: nat): seq<SearchResult> {
    if |items| <= limit then items else items[..limit]
  }
}
