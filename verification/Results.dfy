/** A scored search result, and the provenance an associated one carries in its metadata. */
module Results {
  import opened Common
  import opened CanonicalReader
  import opened Sorting

  datatype Trace = Trace(
    associatedFrom: string,
    associationRoot: string,
    depth: nat,
    path: seq<string>,
    relationType: string,
    strength: real,
    readSource: ReadSource,
    evolvedFrom: Option<string>,
    dreamId: Option<string>)

  datatype SearchResult = SearchResult(
    id: string,
    content: string,
    layer: string,
    category: Option<string>,
    score: real,
    createdAt: Option<string>,
    topicKey: Option<string>,
    rootId: Option<string>,
    channel: Option<string>,
    temperature: Option<string>,
    isHead: bool,
    trace: Option<Trace>)

  /** Descending score: `b.score.partial_cmp(&a.score)`. */
  predicate Higher(a: SearchResult, b: SearchResult) {
    a.score > b.score
  }

  const BY_SCORE: (SearchResult, SearchResult) -> bool := (a: SearchResult, b: SearchResult) => Higher(a, b)

  const OTHER_ID: (SearchResult, SearchResult) -> bool := (a: SearchResult, b: SearchResult) => a.id != b.id

  lemma ByScoreIsStrict()
    ensures StrictOrder(BY_SCORE)
  {
  }

  predicate Descending(s: seq<SearchResult>) {
    forall i, j | 0 <= i < j < |s| :: s[i].score >= s[j].score
  }

  predicate DistinctResultIds(s: seq<SearchResult>) {
    forall i, j | 0 <= i < j < |s| :: s[i].id != s[j].id
  }

  /** What sorting a result vector by score keeps and establishes. */
  lemma SortByScore(s: seq<SearchResult>)
    ensures Descending(Sort(s, BY_SCORE))
    ensures DistinctResultIds(s) ==> DistinctResultIds(Sort(s, BY_SCORE))
    ensures forall r :: r in Sort(s, BY_SCORE) <==> r in s
    ensures Descending(s) ==> Sort(s, BY_SCORE) == s
  {
    ByScoreIsStrict();
    SortSorts(s, BY_SCORE);
    MembersOfSort(s, BY_SCORE);
    var t := Sort(s, BY_SCORE);
    assert forall i, j | 0 <= i < j < |t| :: !BY_SCORE(t[j], t[i]);
    if DistinctResultIds(s) {
      SortPairwise(s, BY_SCORE, OTHER_ID);
      assert forall i, j | 0 <= i < j < |t| :: OTHER_ID(t[i], t[j]);
    }
    if Descending(s) {
      SortOfSorted(s, BY_SCORE);
    }
  }
}
