/** Topics behind the direct block: when the list that activation extends still shows each topic once. */
module AppendedTopics {
  import opened Common
  import opened Notes
  import opened CanonicalReader
  import opened ReaderLaws
  import opened Results
  import opened Postprocess
  import opened ActivationGraph
  import opened Activation
  import opened SpreadActivation
  import opened SearchTail
  import opened TailRun

  /** The topics of the direct results have been seen, as the topic pass in front of activation leaves them. */
  predicate TopicsSeen(g: Graph) {
    forall r <- g.direct | TopicOf(r).Some? :: TopicOf(r).value in g.seenTopics
  }

  /** What the tail hands to activation meets both hypotheses on the direct block. */
  lemma TailSeesItsTopics(g: Graph, ranked: seq<SearchResult>, limit: nat, ratio: real)
    requires DistinctResultIds(ranked)
    requires g.direct == Diversified(Top(TopicDeduped(ranked), limit), ratio) && g.seenTopics == TopicsOf(ranked)
    ensures TopicsSeen(g) && OnePerTopic(g.direct)
  {
    TopicDedupIsExact(ranked);
    DedupedIsDirectBlock(ranked, limit);
    hide TopicDeduped, Diversified, OnePerTopic, TopicOf;
    var top := Top(TopicDeduped(ranked), limit);
    DiversifiedKeepsOrder(top, ratio);
    forall r <- g.direct | TopicOf(r).Some? ensures TopicOf(r).value in g.seenTopics {
      assert r in top && r in ranked;
    }
  }

  lemma AppendedIsUnseen(g: Graph, a: SearchResult)
    requires Explained(g, a, MAX_HOPS)
    ensures TopicOf(a).Some? ==> TopicOf(a).value !in g.seenTopics
  {
    var w :| Explains(g, w, a, MAX_HOPS);
    assert Admits(g, HeadAt(g, w.via));
    hide Resolve, PassesFilters, Valid;
  }

  lemma ContractFacts(g: Graph, limit: nat, results: seq<SearchResult>)
    requires SpreadContract(g, limit, results)
    ensures |g.direct| <= |results| && results == g.direct + results[|g.direct|..] && DistinctResultIds(results)
    ensures forall a <- results[|g.direct|..] :: Explained(g, a, MAX_HOPS)
    ensures Exact(g) && |results| < limit ==> Optimal(g, results[|g.direct|..], false)
  {
    hide Explained, Exact, Optimal;
  }

  /** An appended note never repeats a topic of the direct block: only the appended notes can clash. */
  lemma OnePerTopicExactly(g: Graph, limit: nat, results: seq<SearchResult>)
    requires SpreadContract(g, limit, results) && TopicsSeen(g) && OnePerTopic(g.direct)
    ensures OnePerTopic(results) <==> OnePerTopic(results[|g.direct|..])
  {
    ContractFacts(g, limit, results);
    var appended := results[|g.direct|..];
    forall a <- appended ensures TopicOf(a).Some? ==> TopicOf(a).value !in g.seenTopics { AppendedIsUnseen(g, a); }
    hide SpreadContract, Explained, Exact, Optimal, TopicOf;
    JoinedTopics(g.direct, appended, g.seenTopics);
  }

  lemma JoinedTopics(direct: seq<SearchResult>, appended: seq<SearchResult>, seen: set<string>)
    requires OnePerTopic(direct)
    requires forall r <- direct | TopicOf(r).Some? :: TopicOf(r).value in seen
    requires forall a <- appended | TopicOf(a).Some? :: TopicOf(a).value !in seen
    ensures OnePerTopic(direct + appended) <==> OnePerTopic(appended)
  {
    hide TopicOf;
    var all, n := direct + appended, |direct|;
    assert forall i | 0 <= i < |appended| :: all[n + i] == appended[i];
    if OnePerTopic(appended) {
      forall i, j | 0 <= i < j < |all| && TopicOf(all[i]).Some? ensures TopicOf(all[i]) != TopicOf(all[j]) {
        if i < n <= j {
          assert all[i] in direct && appended[j - n] in appended;
        } else if n <= i {
          assert all[i] == appended[i - n] && all[j] == appended[j - n];
        }
      }
    }
  }

  /** The topic of the note a walk ends at. */
  function TopicReached(g: Graph, w: Walk): Option<string> {
    match w
    case Start(_) => None
    case Hop(_, via) => var key := HeadAt(g, via).topicKey; if key == Some("") then None else key
  }

  /** No two different notes within reach share a topic. */
  ghost predicate ReachedTopicsApart(g: Graph) {
    forall v, w | Reaches(g, v) && Reaches(g, w) && End(g, v) != End(g, w) ::
      TopicReached(g, v).None? || TopicReached(g, v) != TopicReached(g, w)
  }

  lemma SameEndSameTopic(g: Graph, v: Walk, w: Walk)
    requires DistinctIds(g.notes) && Reaches(g, v) && Reaches(g, w) && End(g, v) == End(g, w)
    ensures TopicReached(g, v) == TopicReached(g, w)
  {
    hide Resolve, Admits, Trusted, Score;
    ResolveStaysInTable(g.notes, v.via.note);
    ResolveStaysInTable(g.notes, w.via.note);
    SameIdSameRow(g.notes, HeadAt(g, v.via), HeadAt(g, w.via));
  }

  /** Every appended note stands at the end of a walk within reach, under that note's topic. */
  lemma AppendedIsReached(g: Graph, a: SearchResult) returns (w: Walk)
    requires Explained(g, a, MAX_HOPS)
    ensures Reaches(g, w) && End(g, w) == a.id && TopicReached(g, w) == TopicOf(a)
  {
    w :| Explains(g, w, a, MAX_HOPS);
    hide Resolve, Valid, Score, Path, PassesGuards;
  }

  lemma ApartIsEnough(g: Graph, appended: seq<SearchResult>)
    requires ReachedTopicsApart(g) && DistinctResultIds(appended)
    requires forall a <- appended :: Explained(g, a, MAX_HOPS)
    ensures OnePerTopic(appended)
  {
    hide Explained, TopicOf, TopicReached, Reaches, End;
    forall i, j | 0 <= i < j < |appended| && TopicOf(appended[i]).Some?
      ensures TopicOf(appended[i]) != TopicOf(appended[j])
    {
      var v := AppendedIsReached(g, appended[i]);
      var w := AppendedIsReached(g, appended[j]);
    }
  }

  lemma AllReachedAreShown(g: Graph, appended: seq<SearchResult>, v: Walk) returns (at: nat)
    requires DistinctIds(g.notes) && Optimal(g, appended, false) && Reaches(g, v)
    requires forall a <- appended :: Explained(g, a, MAX_HOPS)
    ensures at < |appended| && appended[at].id == End(g, v) && TopicOf(appended[at]) == TopicReached(g, v)
  {
    hide Explained, TopicOf, TopicReached, Reaches, End;
    var a :| a in appended && a.id == End(g, v);
    at :| 0 <= at < |appended| && appended[at] == a;
    var w := AppendedIsReached(g, a);
    SameEndSameTopic(g, v, w);
  }

  lemma ApartIsNeeded(g: Graph, appended: seq<SearchResult>)
    requires DistinctIds(g.notes) && Optimal(g, appended, false) && OnePerTopic(appended)
    requires forall a <- appended :: Explained(g, a, MAX_HOPS)
    ensures ReachedTopicsApart(g)
  {
    hide Explained, TopicOf, TopicReached, Reaches, End, Optimal, DistinctIds;
    forall v, w | Reaches(g, v) && Reaches(g, w) && End(g, v) != End(g, w)
      ensures TopicReached(g, v).None? || TopicReached(g, v) != TopicReached(g, w)
    {
      var i := AllReachedAreShown(g, appended, v);
      var j := AllReachedAreShown(g, appended, w);
      assert i != j;
    }
  }

  /**
   * The whole list shows each topic once if no two notes within reach share one; and, where the search is exact and has
   * room for all it finds, only then.
   */
  lemma WholeListOnePerTopicExactly(g: Graph, limit: nat, results: seq<SearchResult>)
    requires DistinctIds(g.notes) && SpreadContract(g, limit, results) && TopicsSeen(g) && OnePerTopic(g.direct)
    ensures ReachedTopicsApart(g) ==> OnePerTopic(results)
    ensures Exact(g) && |results| < limit ==> (OnePerTopic(results) <==> ReachedTopicsApart(g))
  {
    ContractFacts(g, limit, results);
    OnePerTopicExactly(g, limit, results);
    var appended := results[|g.direct|..];
    hide SpreadContract, Explained, Exact, Optimal, OnePerTopic, ReachedTopicsApart, DistinctIds, TopicsSeen;
    if ReachedTopicsApart(g) {
      SuffixIsDistinct(results, |g.direct|);
      ApartIsEnough(g, appended);
    }
    if Exact(g) && |results| < limit && OnePerTopic(results) {
      ApartIsNeeded(g, appended);
    }
  }

  lemma SuffixIsDistinct(results: seq<SearchResult>, n: nat)
    requires n <= |results| && DistinctResultIds(results)
    ensures DistinctResultIds(results[n..])
  {
  }

  /** Stored notes that activation may land on carry different topics: enough for walks of any kind. */
  lemma AdmittedTopicsApart(g: Graph)
    requires DistinctIds(g.notes)
    requires forall a <- g.notes, b <- g.notes | Admits(g, a) && Admits(g, b) && a.id != b.id ::
               a.topicKey.GetOr("") == "" || a.topicKey != b.topicKey
    ensures ReachedTopicsApart(g)
  {
    hide Resolve, Admits, Trusted, Score;
    forall v, w | Reaches(g, v) && Reaches(g, w) && End(g, v) != End(g, w)
      ensures TopicReached(g, v).None? || TopicReached(g, v) != TopicReached(g, w)
    {
      ResolveStaysInTable(g.notes, v.via.note);
      ResolveStaysInTable(g.notes, w.via.note);
    }
  }
}
