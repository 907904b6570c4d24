/** What an associated result shows: whose columns, along which edges, at which score. */
module SearchAnswers {
  import opened Common
  import opened Text
  import opened Notes
  import opened CanonicalReader
  import opened ReaderLaws
  import opened ReaderAnswers
  import opened Results
  import opened ActivationGraph
  import opened Activation
  import opened SpreadActivation

  // ---- which notes may be shown ----

  /** ASCII case aside; `word` is in lower case. */
  predicate Spells(s: string, word: string) {
    |s| == |word| && forall i | 0 <= i < |s| :: s[i] == word[i] || ('A' <= s[i] <= 'Z' && s[i] - 'A' + 'a' == word[i])
  }

  predicate LowerCase(word: string) {
    forall c <- word :: !('A' <= c <= 'Z')
  }

  lemma SpellsExactly(s: string, word: string)
    requires LowerCase(word)
    ensures AsciiLower(s) == word <==> Spells(s, word)
  {
    if Spells(s, word) {
      forall i | 0 <= i < |s| ensures AsciiLower(s)[i] == word[i] { assert word[i] in word; }
    }
    if AsciiLower(s) == word {
      forall i | 0 <= i < |s| ensures s[i] == word[i] || ('A' <= s[i] <= 'Z' && s[i] - 'A' + 'a' == word[i]) {
        assert AsciiLower(s)[i] == word[i];
      }
    }
  }

  /** A confirmed row, or one without a source, or one the user or a checkpoint wrote. */
  predicate Confided(t: Table, id: string) {
    exists r <- t :: r.id == id
      && (r.confirmed || r.source.None? || Spells(Trim(r.source.value), "user")
          || Spells(Trim(r.source.value), "checkpoint"))
  }

  lemma TrustedExactly(t: Table, id: string)
    requires DistinctIds(t)
    ensures Trusted(t, id) <==> Confided(t, id)
  {
    hide Trim, AsciiLower, Spells;
    forall s: string ensures AsciiLower(s) in {"user", "checkpoint"} <==> Spells(s, "user") || Spells(s, "checkpoint") {
      SpellsExactly(s, "user");
      SpellsExactly(s, "checkpoint");
    }
    forall r <- t | r.id == id ensures Find(t, id) == Some(r) { FindOwn(t, r); }
    hide Find, DistinctIds;
  }

  /** Every filter of the search, one by one. */
  predicate Admissible(g: Graph, row: NoteRow) {
    && (forall r <- g.direct :: r.id != row.id)
    && Confided(g.notes, row.id)
    && (g.params.onlyActive ==> row.isActive)
    && row.isHead && row.evolutionState != Some("superseded") && row.evolutionState != Some("contradicted")
    && (g.params.layer.Some? ==> g.params.layer == Some(row.layer))
    && (g.params.category.Some? ==> row.category == g.params.category)
    && (g.params.room.Some? ==> row.room == g.params.room)
    && (g.params.projectId.Some? && !g.params.crossProject ==> row.projectId == g.params.projectId)
    && (row.layer == "identity_schema" ==> g.params.includeConstitution || g.params.layer == Some("identity_schema"))
    && (row.topicKey.Some? ==> row.topicKey.value !in g.seenTopics)
  }

  lemma AdmitsExactly(g: Graph, row: NoteRow)
    requires DistinctIds(g.notes)
    ensures Admits(g, row) <==> Admissible(g, row)
  {
    TrustedExactly(g.notes, row.id);
    hide Trusted, Confided, DistinctIds;
  }

  // ---- which edges join two notes ----

  predicate RelatedBy(e: Relation, from: string, to: string) {
    (e.fromId == from && e.toId == to) || (e.toId == from && e.fromId == to)
  }

  /** A relation of a known type, in either direction. */
  predicate Related(g: Graph, from: string, kind: string, strength: real, to: string) {
    && g.hasRelations && kind in {"supports", "refines", "overlaps", "co_activated"} && strength > 0.4
    && exists e <- g.relations :: e.kind == kind && e.strength == strength && RelatedBy(e, from, to)
  }

  predicate EvidenceOf(d: Dream, id: string) {
    id != "" && exists raw <- d.evidenceIds :: Trim(raw) == id
  }

  /** The candidate was promoted from one of the two notes to the other. */
  predicate DreamedBy(d: Dream, from: string, to: string) {
    && d.promotedTo.Some? && !IsBlank(d.promotedTo.value) && from != to
    && ((d.promotedTo.value == from && EvidenceOf(d, to)) || (d.promotedTo.value == to && EvidenceOf(d, from)))
  }

  predicate Dreamed(g: Graph, from: string, strength: real, dreamId: string, to: string) {
    && g.hasDreams && strength > 0.4
    && exists d <- g.dreams(from) ::
         d.id == dreamId && DreamedBy(d, from, to)
         && strength == if d.confidence < 0.0 then 0.0 else if d.confidence > 1.0 then 1.0 else d.confidence
  }

  predicate Linked(g: Graph, from: string, kind: string, strength: real, dreamId: Option<string>, to: string) {
    match dreamId
    case None => Related(g, from, kind, strength, to)
    case Some(id) => kind == "dreaming_evidence" && Dreamed(g, from, strength, id, to)
  }

  lemma FindExactly(t: Table, id: string, row: NoteRow)
    requires DistinctIds(t)
    ensures Find(t, id) == Some(row) <==> row in t && row.id == id
  {
    if row in t { FindOwn(t, row); }
  }

  lemma JoinsExactly(g: Graph, e: Relation, from: string, nb: Neighbor)
    requires DistinctIds(g.notes)
    ensures Joins(g.notes, e, from, true, nb) || Joins(g.notes, e, from, false, nb) <==>
            && nb.sourceId == from && nb.dreamId.None? && nb.note in g.notes
            && nb.relationType in {"supports", "refines", "overlaps", "co_activated"} && nb.strength > 0.4
            && e.kind == nb.relationType && e.strength == nb.strength && RelatedBy(e, from, nb.note.id)
  {
    FindExactly(g.notes, e.toId, nb.note);
    FindExactly(g.notes, e.fromId, nb.note);
    hide Find, DistinctIds;
  }

  lemma DreamJoinsExactly(g: Graph, d: Dream, from: string, nb: Neighbor)
    requires DistinctIds(g.notes)
    ensures DreamJoins(g.notes, d, from, nb) <==>
            && nb.sourceId == from && nb.relationType == "dreaming_evidence" && nb.note in g.notes
            && nb.dreamId == Some(d.id) && nb.strength > 0.4 && DreamedBy(d, from, nb.note.id)
            && nb.strength == if d.confidence < 0.0 then 0.0 else if d.confidence > 1.0 then 1.0 else d.confidence
  {
    FindExactly(g.notes, nb.note.id, nb.note);
    if d.promotedTo.Some? { TrimOfBlank(d.promotedTo.value); }
    assert forall id :: IsEvidence(d, id) <==> EvidenceOf(d, id);
    hide Find, DistinctIds, Trim, IsEvidence, EvidenceOf;
  }

  lemma RelationNeighbors(g: Graph, from: string, nb: Neighbor)
    requires DistinctIds(g.notes) && g.hasRelations
    ensures nb in JoinRelations(g.notes, g.relations, from, true) + JoinRelations(g.notes, g.relations, from, false)
            <==>
            nb.sourceId == from && nb.dreamId.None? && nb.note in g.notes
            && Related(g, from, nb.relationType, nb.strength, nb.note.id)
  {
    JoinRelationsExactly(g.notes, g.relations, from, true, nb);
    JoinRelationsExactly(g.notes, g.relations, from, false, nb);
    forall e: Relation
      ensures Joins(g.notes, e, from, true, nb) || Joins(g.notes, e, from, false, nb) <==>
              && nb.sourceId == from && nb.dreamId.None? && nb.note in g.notes
              && nb.relationType in {"supports", "refines", "overlaps", "co_activated"} && nb.strength > 0.4
              && e.kind == nb.relationType && e.strength == nb.strength && RelatedBy(e, from, nb.note.id)
    {
      JoinsExactly(g, e, from, nb);
    }
    hide JoinRelations, Joins, RelatedBy, DistinctIds;
  }

  lemma DreamNeighbors(g: Graph, from: string, nb: Neighbor)
    requires DistinctIds(g.notes) && g.hasDreams
    ensures nb in JoinDreams(g.notes, g.dreams(from), from) <==>
            nb.sourceId == from && nb.dreamId.Some? && nb.note in g.notes && nb.relationType == "dreaming_evidence"
            && Dreamed(g, from, nb.strength, nb.dreamId.value, nb.note.id)
  {
    JoinDreamsExactly(g.notes, g.dreams(from), from, nb);
    forall d: Dream
      ensures DreamJoins(g.notes, d, from, nb) <==>
              && nb.sourceId == from && nb.relationType == "dreaming_evidence" && nb.note in g.notes
              && nb.dreamId == Some(d.id) && nb.strength > 0.4 && DreamedBy(d, from, nb.note.id)
              && nb.strength == if d.confidence < 0.0 then 0.0 else if d.confidence > 1.0 then 1.0 else d.confidence
    {
      DreamJoinsExactly(g, d, from, nb);
    }
    hide JoinDreams, DreamJoins, DreamedBy, DistinctIds;
  }

  lemma DreamsAreMarked(g: Graph, from: string, nb: Neighbor)
    ensures nb in JoinDreams(g.notes, g.dreams(from), from) ==> nb.dreamId.Some?
    ensures nb in JoinRelations(g.notes, g.relations, from, true) + JoinRelations(g.notes, g.relations, from, false) ==>
              nb.dreamId.None?
  {
    JoinDreamsExactly(g.notes, g.dreams(from), from, nb);
    JoinRelationsExactly(g.notes, g.relations, from, true, nb);
    JoinRelationsExactly(g.notes, g.relations, from, false, nb);
    hide JoinDreams, JoinRelations, Find;
  }

  /** The neighbours of a note are the stored notes that a relation or a dream links it to. */
  lemma NeighborsExactly(g: Graph, from: string, nb: Neighbor)
    requires DistinctIds(g.notes)
    ensures nb in Neighbors(g, from) <==>
            nb.sourceId == from && nb.note in g.notes
            && Linked(g, from, nb.relationType, nb.strength, nb.dreamId, nb.note.id)
  {
    if g.hasRelations { RelationNeighbors(g, from, nb); }
    if g.hasDreams { DreamNeighbors(g, from, nb); }
    DreamsAreMarked(g, from, nb);
    var related := JoinRelations(g.notes, g.relations, from, true) + JoinRelations(g.notes, g.relations, from, false);
    var dreamed := JoinDreams(g.notes, g.dreams(from), from);
    assert nb in Neighbors(g, from) <==> (g.hasRelations && nb in related) || (g.hasDreams && nb in dreamed);
    hide JoinRelations, JoinDreams, Neighbors;
  }

  // ---- whose columns a result shows ----

  predicate ShowsRow(a: SearchResult, row: NoteRow) {
    && a.id == row.id && a.content == row.content && a.layer == row.layer && a.category == row.category
    && a.createdAt == row.createdAt && a.topicKey == row.topicKey && a.rootId == row.rootId
    && a.channel == Some("association") && a.isHead
  }

  /** An appended result shows the columns of one stored, admissible row: that of its own id. */
  lemma AppendedShowsItsRow(g: Graph, limit: nat, results: seq<SearchResult>, a: SearchResult)
    requires DistinctIds(g.notes) && SpreadContract(g, limit, results)
    requires |g.direct| <= |results| && a in results[|g.direct|..]
    ensures exists row <- g.notes :: ShowsRow(a, row) && Admissible(g, row)
  {
    var w := WalkOf(g, limit, results, a);
    var row := HeadAt(g, w.via);
    ResolveStaysInTable(g.notes, w.via.note);
    AdmitsExactly(g, row);
    HeadIsShown(g, w);
    hide Explains, Resolve, Admits, Admissible, DistinctIds, SpreadContract, ShowsRow;
  }

  lemma WalkOf(g: Graph, limit: nat, results: seq<SearchResult>, a: SearchResult) returns (w: Walk)
    requires SpreadContract(g, limit, results) && |g.direct| <= |results| && a in results[|g.direct|..]
    ensures Explains(g, w, a, 3) && w.Hop? && a == Associated(g, w) && w.via.note in g.notes
            && Admits(g, HeadAt(g, w.via))
  {
    hide Exact, Optimal;
    assert Explained(g, a, MAX_HOPS);
    w :| Explains(g, w, a, MAX_HOPS);
    hide Admits, Resolve;
  }

  lemma HeadIsShown(g: Graph, w: Walk)
    requires w.Hop? && Admits(g, HeadAt(g, w.via))
    ensures ShowsRow(Associated(g, w), HeadAt(g, w.via))
  {
    hide Resolve, Trusted;
  }

  // ---- where it came from ----

  /** The note resolves to this id, by its root, by its topic or by being its own head. */
  ghost predicate LandsOn(t: Table, note: NoteRow, source: ReadSource, id: string) {
    exists read: Read, root, topic ::
      && Effective(note.rootId, None, root) && Effective(note.topicKey, None, topic) && Answers(t, root, topic, read)
      && read.source == source
      && id == if read.note.Some? then read.note.value.id else note.id
  }

  lemma ResolvesToHead(t: Table, note: NoteRow)
    requires DistinctIds(t)
    ensures LandsOn(t, note, ReadLineage(t, LineageOfRow(note)).source, Resolve(t, note).id)
  {
    var root, topic := RowReadExactly(t, note);
    var read := ReadLineage(t, LineageOfRow(note));
    hide Effective, Answers, ReadLineage;
    assert read.source == read.source;
  }

  ghost predicate FollowedFrom(g: Graph, from: string, strength: real, id: string) {
    exists kind, dreamId, note: NoteRow, source ::
      note in g.notes && Linked(g, from, kind, strength, dreamId, note.id) && LandsOn(g.notes, note, source, id)
  }

  /** The last step, as the trace names it. */
  ghost predicate StepIsReal(g: Graph, a: SearchResult, trace: Trace) {
    exists note <- g.notes ::
      && note.id == (if trace.evolvedFrom.Some? then trace.evolvedFrom.value else a.id)
      && trace.evolvedFrom != Some(a.id)
      && Linked(g, trace.associatedFrom, trace.relationType, trace.strength, trace.dreamId, note.id)
      && LandsOn(g.notes, note, trace.readSource, a.id)
  }

  ghost predicate PathIsReal(g: Graph, a: SearchResult, trace: Trace) {
    && 1 <= trace.depth <= 3 && |trace.path| == trace.depth + 1
    && trace.path[0] == trace.associationRoot && trace.path[trace.depth] == a.id
    && trace.path[trace.depth - 1] == trace.associatedFrom
    && (exists r <- g.direct :: r.id == trace.associationRoot)
    && (forall k | 1 <= k <= trace.depth :: forall r <- g.direct :: r.id != trace.path[k])
    && (forall j, k | 0 <= j < k <= trace.depth :: trace.path[j] != trace.path[k])
  }

  /** An appended result's trace names its root, its path and the edge of its last step as they are stored. */
  lemma AppendedTraceIsReal(g: Graph, limit: nat, results: seq<SearchResult>, a: SearchResult)
    requires DistinctIds(g.notes) && SpreadContract(g, limit, results)
    requires |g.direct| <= |results| && a in results[|g.direct|..]
    ensures a.trace.Some? && PathIsReal(g, a, a.trace.value) && StepIsReal(g, a, a.trace.value)
  {
    var w := WalkOf(g, limit, results, a);
    TracePath(g, w, a);
    TraceStep(g, w, a);
    hide Explains, SpreadContract, PathIsReal, StepIsReal, Associated, Resolve;
  }

  lemma TracePath(g: Graph, w: Walk, a: SearchResult)
    requires Explains(g, w, a, 3)
    ensures a.trace.Some? && PathIsReal(g, a, a.trace.value)
  {
    PathAfterRootIsAdmitted(g, w);
    var p := Path(g, w);
    assert p[..|p| - 1] == Path(g, w.prefix);
    assert p[|p| - 2] == End(g, w.prefix);
    assert w.via.sourceId == End(g, w.prefix);
    assert p[|p| - 1] == End(g, w) == a.id;
    hide Valid, Path, Resolve, PassesGuards, Score;
  }

  lemma TraceStep(g: Graph, w: Walk, a: SearchResult)
    requires DistinctIds(g.notes) && Explains(g, w, a, 3)
    ensures a.trace.Some? && StepIsReal(g, a, a.trace.value)
  {
    NeighborsExactly(g, End(g, w.prefix), w.via);
    ResolvesToHead(g.notes, w.via.note);
    hide Neighbors, Linked, LandsOn, Resolve, PassesGuards, Score, Path, Admits, DistinctIds, ReadLineage, NoRepeats;
    assert w.via.note in g.notes;
  }

  // ---- the score along the path ----

  /** The product of 0.3 times each strength. */
  function Product(strengths: seq<real>): real {
    if strengths == [] then 1.0 else Product(strengths[..|strengths| - 1]) * (strengths[|strengths| - 1] * 0.3)
  }

  function Scaled(score: real, factor: real): real {
    score * factor
  }

  function Strengths(w: Walk): seq<real> {
    match w
    case Start(_) => []
    case Hop(p, via) => Strengths(p) + [via.strength]
  }

  /** A direct result, and one linked edge for each pair of neighbours on the path. */
  ghost predicate StepsAlong(g: Graph, path: seq<string>, strengths: seq<real>, root: SearchResult) {
    && root in g.direct && |path| == |strengths| + 1 && path[0] == root.id
    && forall k | 0 <= k < |strengths| :: FollowedFrom(g, path[k], strengths[k], path[k + 1])
  }

  function Root(w: Walk): SearchResult {
    match w
    case Start(r) => r
    case Hop(p, _) => Root(p)
  }

  lemma {:induction false} WalkCarries(g: Graph, w: Walk)
    requires DistinctIds(g.notes) && Valid(g, w)
    ensures StepsAlong(g, Path(g, w), Strengths(w), Root(w))
  {
    hide FollowedFrom, Neighbors, Admits, Trusted, Resolve, DistinctIds;
    if w.Hop? {
      WalkCarries(g, w.prefix);
      HopIsFollowed(g, w);
      StepAppends(g, Path(g, w.prefix), Strengths(w.prefix), Root(w), w.via.strength, End(g, w));
    }
  }

  lemma {:induction false} ScoreIsProduct(w: Walk)
    ensures Score(w) == Scaled(Root(w).score, Product(Strengths(w)))
  {
    hide Offer, Product, Scaled, Damp;
    match w
    case Start(r) =>
      ProductOfNone();
      TimesAssociates(r.score, 1.0, 1.0);
    case Hop(p, via) =>
      ScoreIsProduct(p);
      ProductExtends(Strengths(p), via.strength);
      TimesAssociates(Root(p).score, Product(Strengths(p)), via.strength);
      assert Strengths(w) == Strengths(p) + [via.strength] && Root(w) == Root(p);
      assert Score(w) == Offer(Score(p), via.strength);
  }

  lemma ProductOfNone()
    ensures Product([]) == 1.0
  {
  }

  lemma ProductExtends(strengths: seq<real>, s: real)
    ensures Product(strengths + [s]) == Damp(Product(strengths), s)
  {
    assert (strengths + [s])[..|strengths|] == strengths;
  }

  function Damp(product: real, strength: real): real {
    product * (strength * 0.3)
  }

  lemma StepAppends(g: Graph, path: seq<string>, strengths: seq<real>, root: SearchResult, s: real, id: string)
    requires StepsAlong(g, path, strengths, root) && FollowedFrom(g, path[|path| - 1], s, id)
    ensures StepsAlong(g, path + [id], strengths + [s], root)
  {
    hide FollowedFrom;
  }

  lemma TimesAssociates(score: real, product: real, strength: real)
    ensures Offer(Scaled(score, product), strength) == Scaled(score, Damp(product, strength))
    ensures Scaled(score, 1.0) == score
  {
  }

  lemma HopIsFollowed(g: Graph, w: Walk)
    requires DistinctIds(g.notes) && Valid(g, w) && w.Hop?
    ensures FollowedFrom(g, End(g, w.prefix), w.via.strength, End(g, w))
  {
    NeighborsExactly(g, End(g, w.prefix), w.via);
    ResolvesToHead(g.notes, w.via.note);
    hide Neighbors, Linked, LandsOn, Resolve, Admits, Trusted, ReadLineage;
  }

  /** An appended result scores its root's score times 0.3 and the strength of every edge on its path. */
  lemma AppendedScoreIsProduct(g: Graph, limit: nat, results: seq<SearchResult>, a: SearchResult)
    returns (root: SearchResult, strengths: seq<real>)
    requires DistinctIds(g.notes) && SpreadContract(g, limit, results)
    requires |g.direct| <= |results| && a in results[|g.direct|..]
    ensures a.trace.Some? && StepsAlong(g, a.trace.value.path, strengths, root)
    ensures |strengths| >= 1 && strengths[|strengths| - 1] == a.trace.value.strength
    ensures a.score == Scaled(root.score, Product(strengths)) > 0.0
  {
    hide SpreadContract, StepsAlong, Product, Scaled, Valid, Path, Resolve, Root, Explains, Associated, DistinctIds,
        Admits;
    hide Strengths;
    var w := WalkOf(g, limit, results, a);
    TraceOfExplained(g, w, a);
    WalkCarries(g, w);
    ScoreIsProduct(w);
    root, strengths := Root(w), Strengths(w);
  }

  lemma TraceOfExplained(g: Graph, w: Walk, a: SearchResult)
    requires Explains(g, w, a, 3)
    ensures Valid(g, w) && a.trace.Some? && a.trace.value.path == Path(g, w) && a.score == Score(w) > 0.0
    ensures |Strengths(w)| >= 1 && Strengths(w)[|Strengths(w)| - 1] == a.trace.value.strength
  {
    hide Valid, Path, Resolve, PassesGuards, NoRepeats, ReadLineage;
  }

  // ---- the counters ----

  predicate OfKind(a: SearchResult, kind: string) {
    a.trace.Some? && a.trace.value.relationType == kind
  }

  predicate OfDream(a: SearchResult) {
    a.trace.Some? && a.trace.value.dreamId.Some?
  }

  function HowMany(s: seq<SearchResult>, hit: SearchResult -> bool): nat {
    if s == [] then 0 else (if hit(s[0]) then 1 else 0) + HowMany(s[1..], hit)
  }

  lemma {:induction false} KindsExactly(s: seq<SearchResult>, kind: string, hit: SearchResult -> bool)
    requires forall a :: hit(a) <==> OfKind(a, kind)
    ensures multiset(KindsOf(s))[kind] == HowMany(s, hit)
  {
    if s != [] { KindsExactly(s[1..], kind, hit); }
  }

  lemma {:induction false} DreamsExactly(s: seq<SearchResult>, hit: SearchResult -> bool)
    requires forall a :: hit(a) <==> OfDream(a)
    ensures DreamCount(s) == HowMany(s, hit)
  {
    if s != [] { DreamsExactly(s[1..], hit); }
  }

  /** Per relation type, and for dreams, a counter grows by the appended notes of that origin. */
  lemma CountersExactly(before: Diagnostics, after: Diagnostics, appended: seq<SearchResult>, kind: string)
    requires Accounted(before, after, appended)
    ensures after.resultCount == before.resultCount + |appended|
    ensures after.relationTypeCounts[kind] == before.relationTypeCounts[kind] + HowMany(appended, a => OfKind(a, kind))
    ensures after.dreamEvidenceCount == before.dreamEvidenceCount + HowMany(appended, a => OfDream(a))
    ensures DeepestIs(before.maxDepth, appended, after.maxDepth)
  {
    KindsExactly(appended, kind, a => OfKind(a, kind));
    DreamsExactly(appended, a => OfDream(a));
    hide KindsOf, DreamCount;
  }
}
