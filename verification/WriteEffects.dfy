/** What one write does, case by case and column by column. */
module WriteEffects {
  import opened Common
  import opened Text
  import opened Sorting
  import opened Notes
  import opened CanonicalReader
  import opened HotStore
  import opened WriteOrchestrator
  import opened LineageRuns

  // ---- the layer ----

  /** The layer before classification: the caller's, else the event's if a time or the kind says so, else by kind. */
  predicate AskedLayer(p: Params, layer: string) {
    if p.layer.Some? then layer == p.layer.value
    else if p.when.Some? || p.memoryKind == Some("event") then layer == "event_log"
    else if p.memoryKind == Some("procedure") then layer == "procedure_schema"
    else layer == "verified_fact"
  }

  /** Classification decides only where the caller named no layer, asked for it, and it names a fact or an event. */
  predicate Reclassified(p: Params, e: Env) {
    && !AskedLayer(p, "procedure_schema")
    && p.autoClassify && p.autoClassifyLayer && (p.layer.None? || p.layer == Some(""))
    && (e.classified.layer == "verified_fact" || e.classified.layer == "event_log")
  }

  predicate WritesTo(p: Params, e: Env, layer: string) {
    if Reclassified(p, e) then layer == e.classified.layer else AskedLayer(p, layer)
  }

  lemma LayerExactly(p: Params, e: Env, layer: string)
    ensures LayerOf(p, e) == layer <==> WritesTo(p, e, layer)
  {
  }

  /** The caller's category, else a procedure's routine, else the one classified. */
  predicate FiledUnder(p: Params, e: Env, category: Option<string>) {
    if p.category.Some? then category == p.category
    else if AskedLayer(p, "procedure_schema") then category == Some("routine")
    else if p.autoClassify && e.classified.category != "" then category == Some(e.classified.category)
    else category.None?
  }

  lemma CategoryExactly(p: Params, e: Env, category: Option<string>)
    ensures CategoryOf(p, e) == category <==> FiledUnder(p, e, category)
  {
  }

  // ---- candidates ----

  /** The first `n` of the rows that satisfy `hit`: none left out comes before one that is in. */
  ghost predicate FirstFew(t: Table, hit: NoteRow -> bool, before: (NoteRow, NoteRow) -> bool, n: nat,
                           rows: seq<NoteRow>) {
    && |rows| <= n
    && (forall r <- rows :: r in t && hit(r))
    && (forall i, j | 0 <= i < j < |rows| :: !before(rows[j], rows[i]))
    && forall x <- t | hit(x) && x !in rows :: |rows| == n && forall r <- rows :: !before(x, r)
  }

  lemma TakeIsFirstFew(t: Table, hit: NoteRow -> bool, before: (NoteRow, NoteRow) -> bool, n: nat)
    requires StrictOrder(before)
    ensures FirstFew(t, hit, before, n, Take(Sort(SelectWhere(t, hit), before), n))
  {
    var sorted := Sort(SelectWhere(t, hit), before);
    SortSorts(SelectWhere(t, hit), before);
    MembersOfSort(SelectWhere(t, hit), before);
    var rows := Take(sorted, n);
    forall x <- t | hit(x) && x !in rows ensures |rows| == n && forall r <- rows :: !before(x, r) {
      assert x in sorted;
      var k :| 0 <= k < |sorted| && sorted[k] == x;
      assert k >= n;
    }
  }

  ghost predicate Later(a: string, b: string) {
    exists k: nat :: LessAt(b, a, k)
  }

  lemma LaterExactly(a: string, b: string)
    ensures StrLt(b, a) <==> Later(a, b)
  {
    StrLtExactly(b, a);
  }

  lemma CreatedLaterExactly(a: NoteRow, b: NoteRow)
    ensures CreatedLater(a, b) <==>
            a.createdAt.Some? && (b.createdAt.None? || Later(a.createdAt.value, b.createdAt.value))
  {
    if a.createdAt.Some? && b.createdAt.Some? { LaterExactly(a.createdAt.value, b.createdAt.value); }
  }

  lemma TouchedLaterExactly(touched: NoteRow -> string, a: NoteRow, b: NoteRow)
    ensures TouchedLater(touched, a, b) <==>
            Later(touched(a), touched(b)) || (touched(a) == touched(b) && Later(b.id, a.id))
  {
    LaterExactly(touched(a), touched(b));
    LaterExactly(b.id, a.id);
  }

  lemma CreatedLaterIsStrict()
    ensures StrictOrder((a: NoteRow, b: NoteRow) => CreatedLater(a, b))
  {
    var lt := (a: NoteRow, b: NoteRow) => CreatedLater(a, b);
    forall a, b | lt(a, b) ensures !lt(b, a) { OrderOfTimes(a.createdAt, b.createdAt, b.createdAt); }
    forall a, b, c | lt(a, b) && lt(b, c) ensures lt(a, c) { OrderOfTimes(a.createdAt, b.createdAt, c.createdAt); }
    forall a, b, c | !lt(a, b) && !lt(b, c) ensures !lt(a, c) { OrderOfTimes(a.createdAt, b.createdAt, c.createdAt); }
  }

  predicate LaterTime(a: Option<string>, b: Option<string>) {
    a.Some? && (b.None? || StrLt(b.value, a.value))
  }

  lemma OrderOfTimes(a: Option<string>, b: Option<string>, c: Option<string>)
    ensures LaterTime(a, b) ==> !LaterTime(b, a)
    ensures LaterTime(a, b) && LaterTime(b, c) ==> LaterTime(a, c)
    ensures !LaterTime(a, b) && !LaterTime(b, c) ==> !LaterTime(a, c)
  {
    OrderOfStrings(a.GetOr(""), b.GetOr(""), c.GetOr(""));
    OrderOfStrings(c.GetOr(""), b.GetOr(""), a.GetOr(""));
  }

  lemma OrderOfStrings(a: string, b: string, c: string)
    ensures StrLt(a, b) ==> !StrLt(b, a)
    ensures StrLt(a, b) && StrLt(b, c) ==> StrLt(a, c)
    ensures !StrLt(a, b) && !StrLt(b, c) ==> !StrLt(a, c)
  {
    StrLtTotal(a, b);
    StrLtTotal(b, c);
    StrLtTotal(a, c);
    if StrLt(a, b) && StrLt(b, c) { StrLtTransitive(a, b, c); }
    if StrLt(c, b) && StrLt(b, a) { StrLtTransitive(c, b, a); }
  }

  lemma TouchedLaterIsStrict(touched: NoteRow -> string)
    ensures StrictOrder((a: NoteRow, b: NoteRow) => TouchedLater(touched, a, b))
  {
    var lt := (a: NoteRow, b: NoteRow) => TouchedLater(touched, a, b);
    forall a, b | lt(a, b) ensures !lt(b, a) { OrderOfTouches(touched, a, b, b); }
    forall a, b, c | lt(a, b) && lt(b, c) ensures lt(a, c) { OrderOfTouches(touched, a, b, c); }
    forall a, b, c | !lt(a, b) && !lt(b, c) ensures !lt(a, c) { OrderOfTouches(touched, a, b, c); }
  }

  lemma OrderOfTouches(touched: NoteRow -> string, a: NoteRow, b: NoteRow, c: NoteRow)
    ensures TouchedLater(touched, a, b) ==> !TouchedLater(touched, b, a)
    ensures TouchedLater(touched, a, b) && TouchedLater(touched, b, c) ==> TouchedLater(touched, a, c)
    ensures !TouchedLater(touched, a, b) && !TouchedLater(touched, b, c) ==> !TouchedLater(touched, a, c)
  {
    OrderOfStrings(touched(a), touched(b), touched(c));
    OrderOfStrings(touched(c), touched(b), touched(a));
    OrderOfStrings(a.id, b.id, c.id);
    StrLtTotal(touched(a), touched(b));
    StrLtTotal(touched(b), touched(c));
    StrLtTotal(touched(a), touched(c));
  }

  /** The fifty latest active notes of the layer. */
  lemma DedupCandidatesExactly(t: Table, layer: string)
    ensures FirstFew(t, (x: NoteRow) => x.isActive && x.layer == layer,
                     (a: NoteRow, b: NoteRow) => CreatedLater(a, b), 50,
                     DedupCandidates(t, layer))
  {
    CreatedLaterIsStrict();
    TakeIsFirstFew(t, (x: NoteRow) => x.isActive && x.layer == layer, (a: NoteRow, b: NoteRow) => CreatedLater(a, b),
                   50);
    hide Sort, SelectWhere, Take, FirstFew;
  }

  /** The fifty most recently touched active copies in the layer and project. */
  lemma ExactCandidatesExactly(t: Table, content: string, layer: string, project: string, touched: NoteRow -> string)
    ensures FirstFew(t, (x: NoteRow) => x.isActive && x.layer == layer && x.content == content
                     && x.projectId == Some(project),
                     (a: NoteRow, b: NoteRow) => TouchedLater(touched, a, b), 50,
                     ExactCandidates(t, content, layer, project, touched))
  {
    TouchedLaterIsStrict(touched);
    TakeIsFirstFew(t, (x: NoteRow) => x.isActive && x.layer == layer && x.content == content
                   && x.projectId == Some(project),
                   (a: NoteRow, b: NoteRow) => TouchedLater(touched, a, b), 50);
    hide Sort, SelectWhere, Take, FirstFew;
  }

  // ---- duplicates ----

  /** A stored vector is no obstacle: there is none on either side, or no query, or one of the same length. */
  predicate NoObstacle(stored: StoredVector, query: Option<Vector>) {
    match stored
    case Missing => query.None?
    case Present(v) => query.Some? ==> |v| == |query.value|
    case Invalid => false
  }

  /** The id of the first copy that is no obstacle. */
  ghost predicate CopyIs(rows: seq<NoteRow>, query: Option<Vector>, id: string) {
    exists i: nat :: CopyAt(rows, query, id, i)
  }

  predicate CopyAt(rows: seq<NoteRow>, query: Option<Vector>, id: string, i: nat) {
    && i < |rows| && rows[i].id == id && NoObstacle(rows[i].vector, query)
    && forall j | 0 <= j < i :: !NoObstacle(rows[j].vector, query)
  }

  lemma CopyBehind(rows: seq<NoteRow>, query: Option<Vector>, id: string)
    requires rows != [] && !NoObstacle(rows[0].vector, query) && CopyIs(rows[1..], query, id)
    ensures CopyIs(rows, query, id)
  {
    hide NoObstacle;
    var i: nat :| CopyAt(rows[1..], query, id, i);
    assert forall j | 0 <= j < i + 1 :: j > 0 ==> rows[j] == rows[1..][j - 1];
    assert CopyAt(rows, query, id, i + 1);
  }

  lemma {:induction false} FirstCompatibleIs(rows: seq<NoteRow>, query: Option<Vector>)
    ensures FirstCompatible(rows, query).Some? <==> exists r <- rows :: NoObstacle(r.vector, query)
    ensures FirstCompatible(rows, query).Some? ==> CopyIs(rows, query, FirstCompatible(rows, query).value.id)
  {
    if rows != [] {
      FirstCompatibleIs(rows[1..], query);
      assert VectorCompatible(rows[0].vector, query) <==> NoObstacle(rows[0].vector, query);
      hide NoObstacle, VectorCompatible;
      assert forall r :: r in rows <==> r == rows[0] || r in rows[1..];
      if VectorCompatible(rows[0].vector, query) {
        assert CopyAt(rows, query, rows[0].id, 0);
      } else if FirstCompatible(rows[1..], query).Some? {
        CopyBehind(rows, query, FirstCompatible(rows[1..], query).value.id);
      }
      hide CopyIs;
    }
  }

  /** The similarity of a stored vector of the query's own length. */
  predicate SimilarityTo(query: Vector, similarity: (Vector, Vector) -> real, r: NoteRow, sim: real) {
    match r.vector
    case Present(v) => |v| == |query| && similarity(query, v) == sim
    case _ => false
  }

  ghost predicate IsClosest(rows: seq<NoteRow>, query: Vector, similarity: (Vector, Vector) -> real, m: Match) {
    && (forall r <- rows, sim | SimilarityTo(query, similarity, r, sim) :: sim <= m.similarity)
    && if m.best.None? then m.similarity == 0.0
       else m.similarity > 0.0 && exists i: nat :: ClosestAt(rows, query, similarity, m, i)
  }

  /** The match is the row at `i`, and every earlier one is less similar. */
  ghost predicate ClosestAt(rows: seq<NoteRow>, query: Vector, similarity: (Vector, Vector) -> real, m: Match, i: nat) {
    && i < |rows| && m.best == Some(rows[i]) && SimilarityTo(query, similarity, rows[i], m.similarity)
    && forall j, sim | 0 <= j < i && SimilarityTo(query, similarity, rows[j], sim) :: sim < m.similarity
  }

  lemma BestIsClosest(rows: seq<NoteRow>, query: Vector, similarity: (Vector, Vector) -> real, m: Match)
    requires IsBestMatch(rows, query, similarity, m)
    ensures IsClosest(rows, query, similarity, m)
  {
    if m.best.Some? {
      var i :| BestAt(rows, query, similarity, m, i);
      assert ClosestAt(rows, query, similarity, m, i);
    }
  }

  /** The most similar candidate, the earliest of equals; no candidate if none has a positive similarity. */
  ghost predicate ClosestIs(t: Table, p: Params, e: Env, m: Match) {
    if WritesTo(p, e, "event_log") || e.embedding.None? then m == Match(None, 0.0)
    else exists layer ::
        WritesTo(p, e, layer) && IsClosest(DedupCandidates(t, layer), e.embedding.value, e.similarity, m)
  }

  lemma NearestIsClosest(t: Table, p: Params, e: Env)
    ensures ClosestIs(t, p, e, Nearest(t, p, e))
  {
    LayerExactly(p, e, LayerOf(p, e));
    LayerExactly(p, e, "event_log");
    if LayerOf(p, e) != EVENT_LAYER && e.embedding.Some? {
      BestMatchIsBest(DedupCandidates(t, LayerOf(p, e)), e.embedding.value, e.similarity);
      BestIsClosest(DedupCandidates(t, LayerOf(p, e)), e.embedding.value, e.similarity, Nearest(t, p, e));
    }
    hide WritesTo, LayerOf, DedupCandidates, IsBestMatch, BestMatch, IsClosest;
  }

  // ---- verdicts ----

  /** The checks that look at no stored note, in order. */
  predicate TurnedAway(p: Params, e: Env, why: AddResult) {
    if IsBlank(p.content) then why == Failed(EmptyContent)
    else if WritesTo(p, e, "identity_schema") then why == Failed(IdentityLayer)
    else if WritesTo(p, e, "verified_fact") && !e.policyAllows then why == PolicySkipped("verified_fact")
    else e.embedding.Some? && |e.embedding.value| != 1024 && why == Failed(WrongDimension)
  }

  /** A copy is stored, or a candidate is more similar than 0.88. */
  ghost predicate Repeats(t: Table, project: string, p: Params, e: Env, id: string) {
    && !WritesTo(p, e, "event_log")
    && exists layer :: WritesTo(p, e, layer) && RepeatsIn(t, project, p, e, layer, id)
  }

  ghost predicate RepeatsIn(t: Table, project: string, p: Params, e: Env, layer: string, id: string) {
    var copies := ExactCandidates(t, Trim(p.content), layer, project, e.touched);
    if exists r <- copies :: NoObstacle(r.vector, e.embedding) then CopyIs(copies, e.embedding, id)
    else Nearest(t, p, e).best.Some? && Nearest(t, p, e).similarity > 0.88 && id == Nearest(t, p, e).best.value.id
  }

  /** The guards in the program's terms. */
  function Guards(p: Params, e: Env): Option<AddResult> {
    if Trim(p.content) == "" then Some(Failed(EmptyContent))
    else if LayerOf(p, e) == IDENTITY_LAYER then Some(Failed(IdentityLayer))
    else if LayerOf(p, e) == FACT_LAYER && !e.policyAllows then Some(PolicySkipped(FACT_LAYER))
    else if e.embedding.Some? && |e.embedding.value| != EMBEDDING_DIM then Some(Failed(WrongDimension))
    else None
  }

  lemma GuardsExactly(p: Params, e: Env, why: AddResult)
    ensures TurnedAway(p, e, why) <==> Guards(p, e) == Some(why)
  {
    LayerExactly(p, e, "identity_schema");
    LayerExactly(p, e, "verified_fact");
    TrimOfBlank(p.content);
    hide WritesTo, LayerOf, Trim, IsBlank;
  }

  /** The duplicate checks in the program's terms. */
  function RepeatOf(t: Table, project: string, p: Params, e: Env, layer: string): Option<string> {
    var exact := FirstCompatible(ExactCandidates(t, Trim(p.content), layer, project, e.touched), e.embedding);
    var m := Nearest(t, p, e);
    if exact.Some? then Some(exact.value.id)
    else if m.similarity > DEDUP_SIMILARITY_THRESHOLD && m.best.Some? then Some(m.best.value.id)
    else None
  }

  lemma RejectsSplit(t: Table, project: string, p: Params, e: Env)
    ensures Rejects(t, project, p, e) ==
            if Guards(p, e).Some? then Guards(p, e)
            else if LayerOf(p, e) == EVENT_LAYER then None
            else
              var id := RepeatOf(t, project, p, e, LayerOf(p, e));
              if id.Some? then Some(Duplicate(id.value)) else None
  {
    hide Trim, LayerOf, Nearest, ExactCandidates, FirstCompatible;
  }

  lemma RepeatExactly(t: Table, project: string, p: Params, e: Env, layer: string)
    ensures var id := RepeatOf(t, project, p, e, layer);
            && (id.Some? ==> RepeatsIn(t, project, p, e, layer, id.value))
            && (id.None? ==> forall other :: !RepeatsIn(t, project, p, e, layer, other))
  {
    FirstCompatibleIs(ExactCandidates(t, Trim(p.content), layer, project, e.touched), e.embedding);
    hide Trim, Nearest, ExactCandidates, FirstCompatible, NoObstacle, CopyIs;
  }

  lemma RejectsAreGuards(t: Table, project: string, p: Params, e: Env)
    ensures Guards(p, e).Some? ==> Rejects(t, project, p, e) == Guards(p, e)
    ensures Guards(p, e).None? && Rejects(t, project, p, e).Some? ==>
              && Rejects(t, project, p, e).value.Duplicate?
              && Repeats(t, project, p, e, Rejects(t, project, p, e).value.existingId)
    ensures Guards(p, e).None? && Rejects(t, project, p, e).None? ==> forall id :: !Repeats(t, project, p, e, id)
  {
    var layer := LayerOf(p, e);
    RejectsSplit(t, project, p, e);
    RepeatExactly(t, project, p, e, layer);
    forall other ensures WritesTo(p, e, other) <==> other == layer { LayerExactly(p, e, other); }
    hide WritesTo, LayerOf, Rejects, RepeatOf, Guards, RepeatsIn;
  }

  lemma RejectsExactly(t: Table, project: string, p: Params, e: Env)
    ensures forall why :: TurnedAway(p, e, why) ==> Rejects(t, project, p, e) == Some(why)
    ensures (forall why :: !TurnedAway(p, e, why)) <==> Guards(p, e).None?
  {
    forall why ensures TurnedAway(p, e, why) <==> Guards(p, e) == Some(why) { GuardsExactly(p, e, why); }
    RejectsAreGuards(t, project, p, e);
    hide Guards, TurnedAway, Rejects, Repeats;
  }

  /** Every verdict of an add: exactly when it is given, and that only a save changes the state. */
  lemma AddVerdictExactly(s: HotState, project: string, p: Params, e: Env)
    ensures var (s', r) := Add(s, project, p, e);
            && (!r.Saved? ==> s' == s)
            && (forall why | TurnedAway(p, e, why) :: r == why)
            && (r == Failed(EmptyContent) <==> TurnedAway(p, e, Failed(EmptyContent)))
            && (r == Failed(IdentityLayer) <==> TurnedAway(p, e, Failed(IdentityLayer)))
            && (r.PolicySkipped? <==> TurnedAway(p, e, PolicySkipped("verified_fact")))
            && (r == Failed(WrongDimension) <==> TurnedAway(p, e, Failed(WrongDimension)))
            && ((forall why :: !TurnedAway(p, e, why)) ==>
                  && (r.Duplicate? <==> exists id :: Repeats(s.notes, project, p, e, id))
                  && (r.Duplicate? ==> Repeats(s.notes, project, p, e, r.existingId))
                  && (!r.Duplicate? ==>
                        if e.upsertFails then r == Failed(UpsertFailed)
                        else if e.coldStorageFails then r == Failed(ColdStorageFailed)
                        else r.Saved?))
            && (r.Saved? ==>
                  (forall why :: !TurnedAway(p, e, why)) && forall id :: !Repeats(s.notes, project, p, e, id))
  {
    RejectsExactly(s.notes, project, p, e);
    RejectsAreGuards(s.notes, project, p, e);
    forall why ensures TurnedAway(p, e, why) <==> Guards(p, e) == Some(why) { GuardsExactly(p, e, why); }
    AddFollowsRejects(s, project, p, e);
    GuardsAreNoOutcome(p, e);
    hide Rejects, Repeats, TurnedAway, Guards, Add;
  }

  lemma GuardsAreNoOutcome(p: Params, e: Env)
    ensures Guards(p, e).Some? ==>
              Guards(p, e).value in {Failed(EmptyContent), Failed(IdentityLayer), PolicySkipped("verified_fact"),
                                     Failed(WrongDimension)}
  {
  }

  lemma AddFollowsRejects(s: HotState, project: string, p: Params, e: Env)
    ensures var (s', r), no := Add(s, project, p, e), Rejects(s.notes, project, p, e);
            && (no.Some? ==> s' == s && r == no.value)
            && (no.None? && e.upsertFails ==> s' == s && r == Failed(UpsertFailed))
            && (no.None? && !e.upsertFails && e.coldStorageFails ==> s' == s && r == Failed(ColdStorageFailed))
            && (no.None? && !e.upsertFails && !e.coldStorageFails ==> r.Saved?)
  {
    hide Rejects, Written, Nearest, LayerOf, CrossLayer;
  }

  // ---- what a save writes ----

  /** The source recorded: the caller's, unless the note was flagged. */
  predicate AttributedTo(p: Params, e: Env, source: Option<string>) {
    if e.flagged then source == Some("ai_proposal") else source == p.source
  }

  predicate StoredAs(embedding: Option<Vector>, stored: StoredVector) {
    match embedding
    case None => stored == Missing
    case Some(v) => stored == Present(v)
  }

  /** Every column of the new row but its topic key. */
  predicate IsNewNote(project: string, p: Params, e: Env, u: NoteRow) {
    && u.id == e.newId && u.content == Trim(p.content) && WritesTo(p, e, u.layer) && FiledUnder(p, e, u.category)
    && u.room == p.room && u.projectId == Some(project) && AttributedTo(p, e, u.source) && !u.confirmed
    && u.isActive && u.isHead && u.evolutionState == Some("active")
    && u.rootId == (if p.rootId.Some? then p.rootId else Some(e.newId)) && u.createdAt == Some(e.now)
    && StoredAs(e.embedding, u.vector) && u.checkpointTask.None? && u.metadata == e.metadata
  }

  /** The content's longest prefix of at most 100 UTF-8 bytes. */
  predicate IsKeyPrefix(content: string, prefix: string) {
    && prefix <= content && Bytes(prefix) <= 100
    && (|prefix| < |content| ==> Bytes(content[..|prefix| + 1]) > 100)
  }

  function Bytes(s: string): nat {
    if s == "" then 0
    else
      var n := if s[0] < '\U{80}' then 1 else if s[0] < '\U{800}' then 2 else if s[0] < '\U{10000}' then 3 else 4;
      n + Bytes(s[1..])
  }

  /** A fresh key: the layer, a colon, and that prefix on one line. */
  ghost predicate IsFreshKey(layer: string, content: string, key: string) {
    exists prefix :: IsKeyPrefix(content, prefix) && SpellsKey(layer, prefix, key)
  }

  predicate SpellsKey(layer: string, prefix: string, key: string) {
    && |key| == |layer| + 1 + |prefix| && key[..|layer|] == layer && key[|layer|] == ':'
    && forall i | 0 <= i < |prefix| :: key[|layer| + 1 + i] == if prefix[i] == '\n' then ' ' else prefix[i]
  }

  lemma {:induction false} SafePrefixExactly(s: string, max: nat)
    ensures var q := SafePrefix(s, max);
            q <= s && Bytes(q) <= max && (|q| < |s| ==> Bytes(s[..|q| + 1]) > max)
  {
    if s != "" {
      var n := Utf8Length(s[0]);
      if n > max {
        assert s[..1] == [s[0]] && [s[0]][1..] == "";
      } else {
        SafePrefixExactly(s[1..], max - n);
        var q, tail := SafePrefix(s, max), SafePrefix(s[1..], max - n);
        assert q == [s[0]] + tail && q[1..] == tail;
        assert |q| < |s| ==> s[..|q| + 1] == [s[0]] + s[1..][..|tail| + 1] && s[..|q| + 1][1..] == s[1..][..|tail| + 1];
      }
    }
  }

  lemma FreshKeyExactly(layer: string, content: string)
    ensures IsFreshKey(layer, content, BuildTopicKey(layer, content))
  {
    SafePrefixExactly(content, 100);
    var prefix := SafePrefix(content, 100);
    hide SafePrefix, Bytes;
    assert SpellsKey(layer, prefix, BuildTopicKey(layer, content));
  }

  /**
   * The topic key: the caller's; none for an event; else that of the superseded note, of a close one, or a fresh one.
   */
  ghost predicate IsTopic(t: Table, p: Params, e: Env, layer: string, key: Option<string>) {
    var m := Nearest(t, p, e);
    if p.topicKey.Some? then key == p.topicKey
    else if layer == "event_log" then key.None?
    else if m.best.Some? && m.similarity >= 0.70 && m.best.value.topicKey.Some? then key == m.best.value.topicKey
    else key.Some? && IsFreshKey(layer, Trim(p.content), key.value)
  }

  lemma TopicExactly(t: Table, p: Params, e: Env)
    requires DistinctIds(t)
    ensures IsTopic(t, p, e, LayerOf(p, e), RowToWrite(t, "", p, e).topicKey)
  {
    NearestIsStored(t, p, e);
    var m := Nearest(t, p, e);
    if m.best.Some? { FindOwn(t, m.best.value); }
    FreshKeyExactly(LayerOf(p, e), Trim(p.content));
    hide Nearest, LayerOf, CategoryOf, Trim, BuildTopicKey, IsFreshKey, Find;
  }

  /** The ids a save retires: the closest note from similarity 0.70 on, and what the contradiction scan hits. */
  ghost predicate Retires(t: Table, p: Params, e: Env, id: string) {
    || (Nearest(t, p, e).best.Some? && Nearest(t, p, e).similarity >= 0.70 && id == Nearest(t, p, e).best.value.id)
    || (!WritesTo(p, e, "event_log") && e.embedding.Some? && id in e.crossLayerHits)
  }

  /** Retired by a write: no longer head nor active, in the superseded state, and otherwise as it was. */
  predicate IsSuperseded(r: NoteRow, u: NoteRow) {
    && !u.isHead && !u.isActive && u.evolutionState == Some("superseded")
    && u.id == r.id && u.content == r.content && u.layer == r.layer && u.category == r.category && u.room == r.room
    && u.projectId == r.projectId && u.source == r.source && u.confirmed == r.confirmed
    && u.topicKey == r.topicKey && u.rootId == r.rootId && u.createdAt == r.createdAt && u.vector == r.vector
    && u.checkpointTask == r.checkpointTask && u.metadata == r.metadata
  }

  /** The table after a save: the old rows, retired or as they were, and the new one behind them. */
  ghost predicate IsSaved(t: Table, project: string, p: Params, e: Env, u: Table) {
    && |u| == |t| + 1
    && (forall i | 0 <= i < |t| :: if Retires(t, p, e, t[i].id) then IsSuperseded(t[i], u[i]) else u[i] == t[i])
    && IsNewNote(project, p, e, u[|t|]) && IsTopic(t, p, e, u[|t|].layer, u[|t|].topicKey)
  }

  /** A row under a new id: its own root and active, unless it says otherwise. */
  function Inserted(row: NoteRow): NoteRow {
    row.(rootId := row.rootId.Or(Some(row.id)), evolutionState := Some(row.evolutionState.GetOr("active")))
  }

  lemma SavedRow(t: Table, project: string, p: Params, e: Env)
    requires DistinctIds(t)
    ensures var row := RowToWrite(t, project, p, e);
            var added := Inserted(row);
            IsNewNote(project, p, e, added) && IsTopic(t, p, e, added.layer, added.topicKey)
  {
    LayerExactly(p, e, LayerOf(p, e));
    CategoryExactly(p, e, CategoryOf(p, e));
    TopicExactly(t, p, e);
    hide WritesTo, FiledUnder, LayerOf, CategoryOf, Trim, DecideTopicKey, Nearest, IsTopic;
  }

  lemma RetiresExactly(t: Table, p: Params, e: Env, id: string)
    ensures Retires(t, p, e, id) <==> id in RetiredBy(t, p, e)
  {
    LayerExactly(p, e, "event_log");
    hide WritesTo, LayerOf, Nearest;
  }

  lemma RetiredRows(t: Table, gone: set<string>)
    ensures var u := CrossLayer(t, gone);
            |u| == |t| && forall i | 0 <= i < |t| :: if t[i].id in gone then IsSuperseded(t[i], u[i]) else u[i] == t[i]
  {
  }

  /** A save answers the new id, its layer, and the one note it superseded. */
  lemma AddAnswers(s: HotState, project: string, p: Params, e: Env)
    requires Add(s, project, p, e).1.Saved?
    ensures var (s', r) := Add(s, project, p, e);
            && s'.changes == s.changes && r.id == e.newId && WritesTo(p, e, r.layer)
            && r.supersededIds == (var m := Nearest(s.notes, p, e);
                                   if m.best.Some? && m.similarity >= 0.70 then [m.best.value.id] else [])
  {
    LayerExactly(p, e, LayerOf(p, e));
    RejectsExactly(s.notes, project, p, e);
    RejectsAreGuards(s.notes, project, p, e);
    GuardsAreNoOutcome(p, e);
    hide Rejects, Written, CrossLayer, Nearest, LayerOf, WritesTo, Guards, Repeats, TurnedAway;
  }

  /** What a save leaves: `AddAnswers` says what it answers. */
  lemma SaveWrites(s: HotState, project: string, p: Params, e: Env)
    requires DistinctIds(s.notes) && !HasId(s.notes, e.newId) && e.newId !in e.crossLayerHits
    requires Add(s, project, p, e).1.Saved?
    ensures IsSaved(s.notes, project, p, e, Add(s, project, p, e).0.notes)
  {
    var t, row, gone := s.notes, RowToWrite(s.notes, project, p, e), RetiredBy(s.notes, p, e);
    RowHasNewId(t, project, p, e);
    hide Add, RowToWrite, IsNewNote, IsTopic, Rejects, Nearest, WritesTo, RetiredBy, Retires, HasId, CrossLayer, Upsert;
    hide IsSuperseded, DistinctIds;
    SavedIsRetired(s, project, p, e);
    SavedRow(t, project, p, e);
    RetiredIsStored(t, p, e);
    InsertsBehind(t, row);
    var added := Inserted(row);
    RetiredRows(t + [added], gone);
    forall id ensures Retires(t, p, e, id) <==> id in gone { RetiresExactly(t, p, e, id); }
  }

  lemma RowHasNewId(t: Table, project: string, p: Params, e: Env)
    ensures RowToWrite(t, project, p, e).id == e.newId
  {
    hide LayerOf, CategoryOf, Nearest, DecideTopicKey;
  }

  lemma InsertsBehind(t: Table, row: NoteRow)
    requires !HasId(t, row.id)
    ensures Upsert(t, row) ==
            t + [Inserted(row)]
  {
  }

  // ---- checkpoints ----

  predicate IsCheckpointOf(r: NoteRow, taskId: string) {
    r.isActive && r.layer == "event_log" && r.checkpointTask == Some(taskId)
  }

  /** Deactivated and otherwise as it was. */
  predicate IsDeactivated(r: NoteRow, u: NoteRow) {
    u == r.(isActive := false)
  }

  predicate IsSavedCheckpoint(project: string, c: Checkpoint, e: Env, u: NoteRow) {
    && u.id == e.newId && u.content == c.content && u.metadata == c.metadata && u.checkpointTask == Some(c.taskId)
    && u.layer == "event_log" && u.category == Some("event") && u.source == Some("user") && u.projectId == Some(project)
    && u.isActive && u.isHead && u.evolutionState == Some("active") && u.rootId == Some(e.newId)
    && u.topicKey.None? && u.room.None? && !u.confirmed && u.createdAt == Some(e.now) && StoredAs(e.embedding, u.vector)
  }

  /** A stored copy of the checkpoint, among the five most recently touched of its content in the project. */
  ghost predicate IsCopy(t: Table, c: Checkpoint, project: string, e: Env, id: string) {
    exists i :: 0 <= i < |Probe(t, c, project, e.touched)| && Probe(t, c, project, e.touched)[i].id == id
      && Probe(t, c, project, e.touched)[i].metadata == c.metadata
      && forall j | 0 <= j < i :: Probe(t, c, project, e.touched)[j].metadata != c.metadata
  }

  lemma ProbeExactly(t: Table, c: Checkpoint, project: string, touched: NoteRow -> string)
    ensures FirstFew(t, (x: NoteRow) => IsCheckpointOf(x, c.taskId) && x.content == c.content
                     && x.projectId == Some(project),
                     (a: NoteRow, b: NoteRow) => TouchedLater(touched, a, b), 5, Probe(t, c, project, touched))
  {
    TouchedLaterIsStrict(touched);
    var hit := (x: NoteRow) => IsCheckpointOf(x, c.taskId) && x.content == c.content && x.projectId == Some(project);
    TakeIsFirstFew(t, hit, (a: NoteRow, b: NoteRow) => TouchedLater(touched, a, b), 5);
    SameSelection(t, hit, (x: NoteRow) => SameCheckpoint(x, c, project));
    hide Sort, SelectWhere, Take, FirstFew;
  }

  lemma {:induction false} SameSelection(t: Table, f: NoteRow -> bool, g: NoteRow -> bool)
    requires forall x :: f(x) <==> g(x)
    ensures SelectWhere(t, f) == SelectWhere(t, g)
  {
    if t != [] { SameSelection(t[1..], f, g); }
  }

  lemma {:induction false} FirstWithMetadataExactly(rows: seq<NoteRow>, metadata: string)
    ensures FirstWithMetadata(rows, metadata).None? <==> forall r <- rows :: r.metadata != metadata
    ensures FirstWithMetadata(rows, metadata).Some? ==>
              exists i :: 0 <= i < |rows| && rows[i] == FirstWithMetadata(rows, metadata).value
                  && rows[i].metadata == metadata
                          && forall j | 0 <= j < i :: rows[j].metadata != metadata
  {
    if rows != [] {
      FirstWithMetadataExactly(rows[1..], metadata);
      assert forall r :: r in rows <==> r == rows[0] || r in rows[1..];
      if rows[0].metadata != metadata && FirstWithMetadata(rows[1..], metadata).Some? {
        var i :| 0 <= i < |rows| - 1 && rows[1..][i] == FirstWithMetadata(rows[1..], metadata).value
                 && rows[1..][i].metadata == metadata && forall j | 0 <= j < i :: rows[1..][j].metadata != metadata;
        assert rows[i + 1] == rows[1..][i];
        assert forall j | 0 <= j < i + 1 :: j > 0 ==> rows[j] == rows[1..][j - 1];
      }
    }
  }

  /** Every row is as it was, except that the task's other active checkpoints are deactivated. */
  ghost predicate OthersRest(t: Table, taskId: string, keep: Option<string>, u: Table) {
    && |t| <= |u|
    && forall i | 0 <= i < |t| ::
         if IsCheckpointOf(t[i], taskId) && keep != Some(t[i].id) then IsDeactivated(t[i], u[i]) else u[i] == t[i]
  }

  /** Every outcome of a checkpoint save, and what it does to every row. */
  lemma SaveExactly(s: HotState, project: string, c: Checkpoint, e: Env)
    requires !HasId(s.notes, e.newId)
    ensures var (s', r) := Save(s, project, c, e);
            && s'.changes == s.changes
            && if exists id :: IsCopy(s.notes, c, project, e, id) then
                 && r.Kept? && IsCopy(s.notes, c, project, e, r.id)
                 && |s'.notes| == |s.notes| && OthersRest(s.notes, c.taskId, Some(r.id), s'.notes)
               else if e.upsertFails then s' == s && r == CheckpointFailed(UpsertFailed)
               else if e.coldStorageFails then s' == s && r == CheckpointFailed(ColdStorageFailed)
               else
                 && r == Kept(e.newId) && |s'.notes| == |s.notes| + 1
                 && OthersRest(s.notes, c.taskId, None, s'.notes)
                 && IsSavedCheckpoint(project, c, e, s'.notes[|s.notes|])
  {
    var rows := Probe(s.notes, c, project, e.touched);
    FirstWithMetadataExactly(rows, c.metadata);
    CopyExactly(s.notes, c, project, e);
    hide Probe, FirstWithMetadata;
    var same := FirstWithMetadata(rows, c.metadata);
    var quiet := Deactivate(s.notes, c.taskId, if same.Some? then Some(same.value.id) else None);
    assert OthersRest(s.notes, c.taskId, if same.Some? then Some(same.value.id) else None, quiet);
    if same.None? {
      StillAbsent(s.notes, c.taskId, e.newId);
      InsertsBehind(quiet, CheckpointRow(project, c, e));
    }
    hide IsCopy, Upsert;
  }

  lemma CopyExactly(t: Table, c: Checkpoint, project: string, e: Env)
    ensures var same := FirstWithMetadata(Probe(t, c, project, e.touched), c.metadata);
            && (same.Some? ==> IsCopy(t, c, project, e, same.value.id))
            && (same.None? ==> forall id :: !IsCopy(t, c, project, e, id))
  {
    FirstWithMetadataExactly(Probe(t, c, project, e.touched), c.metadata);
    hide Probe, FirstWithMetadata;
  }

  lemma StillAbsent(t: Table, taskId: string, id: string)
    requires !HasId(t, id)
    ensures !HasId(Deactivate(t, taskId, None), id)
  {
    var u := Deactivate(t, taskId, None);
    forall r <- u ensures r.id != id {
      var i :| 0 <= i < |u| && u[i] == r;
      assert t[i] in t;
    }
  }
}
