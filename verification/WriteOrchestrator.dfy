/** `write_orchestrator.rs`: deduplicating, superseding, transactional writes. */
module WriteOrchestrator {
  import opened Common
  import opened Text
  import opened Sorting
  import opened Notes
  import opened CanonicalReader
  import opened HotStore

  const DEDUP_SIMILARITY_THRESHOLD: real := 0.88
  const AUTO_SUPERSEDE_THRESHOLD: real := 0.70
  const TOPIC_INHERIT_THRESHOLD: real := 0.78
  const DEDUP_CANDIDATE_LIMIT: nat := 50
  const CHECKPOINT_PROBE_LIMIT: nat := 5
  const TOPIC_PREFIX_BYTES: nat := 100
  const EMBEDDING_DIM: nat := 1024

  datatype Params = Params(
    content: string,
    layer: Option<string>,
    category: Option<string>,
    when: Option<string>,
    memoryKind: Option<string>,
    room: Option<string>,
    source: Option<string>,
    rootId: Option<string>,
    topicKey: Option<string>,
    autoClassify: bool,
    autoClassifyLayer: bool)

  datatype Classification = Classification(category: string, layer: string)

  /** What the services around the store answer during one call, and which of its statements fail. */
  datatype Env = Env(
    newId: string,
    now: string,
    classified: Classification,
    policyAllows: bool,
    embedding: Option<Vector>,
    similarity: (Vector, Vector) -> real,
    touched: NoteRow -> string,
    flagged: bool,
    metadata: string,
    crossLayerHits: set<string>,
    upsertFails: bool,
    coldStorageFails: bool)

  datatype AddResult =
    | Saved(id: string, layer: string, supersededIds: seq<string>)
    | Duplicate(existingId: string)
    | PolicySkipped(layer: string)
    | Failed(why: Failure)

  datatype Failure = EmptyContent | IdentityLayer | WrongDimension | UpsertFailed | SupersedeFailed | ColdStorageFailed

  // ---- deciding the layer ----

  function InitialLayer(p: Params): string {
    if p.layer.Some? then p.layer.value
    else if p.when.Some? then EVENT_LAYER
    else if p.memoryKind == Some("event") then EVENT_LAYER
    else if p.memoryKind == Some("procedure") then PROCEDURE_LAYER
    else FACT_LAYER
  }

  function LayerOf(p: Params, e: Env): string {
    var layer := InitialLayer(p);
    if layer != PROCEDURE_LAYER && p.autoClassify && p.autoClassifyLayer && p.layer.GetOr("") == ""
       && e.classified.layer in {FACT_LAYER, EVENT_LAYER}
    then e.classified.layer else layer
  }

  function CategoryOf(p: Params, e: Env): Option<string> {
    if InitialLayer(p) == PROCEDURE_LAYER then p.category.Or(Some("routine"))
    else if p.autoClassify && e.classified.category != "" then p.category.Or(Some(e.classified.category))
    else p.category
  }

  // ---- duplicates ----

  /** `exact_duplicate_vector_compatible`. */
  predicate VectorCompatible(stored: StoredVector, query: Option<Vector>) {
    match stored
    case Missing => query.None?
    case Present(v) => query.None? || |query.value| == |v|
    case Invalid => false
  }

  predicate TouchedLater(touched: NoteRow -> string, a: NoteRow, b: NoteRow) {
    StrLt(touched(b), touched(a)) || (touched(a) == touched(b) && StrLt(a.id, b.id))
  }

  function Take<T>(s: seq<T>, n: nat): (r: seq<T>)
    ensures forall x <- r :: x in s
  {
    if |s| <= n then s else s[..n]
  }

  function ExactCandidates(t: Table, content: string, layer: string, project: string, touched: NoteRow -> string)
    : (r: seq<NoteRow>)
    ensures forall x <- r :: x in t && x.isActive && x.layer == layer && x.content == content
  {
    var rows := SelectWhere(t, (x: NoteRow) =>
      x.isActive && x.layer == layer && x.content == content && x.projectId == Some(project));
    MembersOfSort(rows, (a: NoteRow, b: NoteRow) => TouchedLater(touched, a, b));
    Take(Sort(rows, (a: NoteRow, b: NoteRow) => TouchedLater(touched, a, b)), DEDUP_CANDIDATE_LIMIT)
  }

  function FirstCompatible(rows: seq<NoteRow>, query: Option<Vector>): (r: Option<NoteRow>)
    ensures r.Some? ==> r.value in rows
  {
    if rows == [] then None
    else if VectorCompatible(rows[0].vector, query) then Some(rows[0])
    else FirstCompatible(rows[1..], query)
  }

  /** `created_at DESC`, where a missing timestamp sorts last. */
  predicate CreatedLater(a: NoteRow, b: NoteRow) {
    a.createdAt.Some? && (b.createdAt.None? || StrLt(b.createdAt.value, a.createdAt.value))
  }

  function DedupCandidates(t: Table, layer: string): (r: seq<NoteRow>)
    ensures forall x <- r :: x in t && x.isActive && x.layer == layer
  {
    var rows := SelectWhere(t, (x: NoteRow) => x.isActive && x.layer == layer);
    MembersOfSort(rows, (a: NoteRow, b: NoteRow) => CreatedLater(a, b));
    Take(Sort(rows, (a: NoteRow, b: NoteRow) => CreatedLater(a, b)), DEDUP_CANDIDATE_LIMIT)
  }

  predicate Comparable(r: NoteRow, query: Vector) {
    r.vector.Present? && |r.vector.values| == |query|
  }

  /** The running best of `check_duplicate`. */
  datatype Match = Match(best: Option<NoteRow>, similarity: real)

  /** The first row whose similarity is largest, provided it is positive. */
  ghost predicate IsBestMatch(rows: seq<NoteRow>, query: Vector, similarity: (Vector, Vector) -> real, m: Match) {
    && m.similarity >= 0.0
    && (forall r <- rows | Comparable(r, query) :: similarity(query, r.vector.values) <= m.similarity)
    && (m.best.None? <==> m.similarity == 0.0)
    && (m.best.Some? ==>
          exists i :: BestAt(rows, query, similarity, m, i))
  }

  predicate BestAt(rows: seq<NoteRow>, query: Vector, similarity: (Vector, Vector) -> real, m: Match, i: int) {
    && 0 <= i < |rows| && Some(rows[i]) == m.best && Comparable(rows[i], query)
    && similarity(query, rows[i].vector.values) == m.similarity
    && forall j | 0 <= j < i && Comparable(rows[j], query) :: similarity(query, rows[j].vector.values) < m.similarity
  }

  function BestMatch(rows: seq<NoteRow>, query: Vector, similarity: (Vector, Vector) -> real): Match {
    if rows == [] then Match(None, 0.0)
    else
      var m, r := BestMatch(rows[..|rows| - 1], query, similarity), rows[|rows| - 1];
      if Comparable(r, query) && similarity(query, r.vector.values) > m.similarity
      then Match(Some(r), similarity(query, r.vector.values)) else m
  }

  /** The scan finds the maximum, and the earliest row attaining it. */
  lemma {:induction false} BestMatchIsBest(rows: seq<NoteRow>, query: Vector, similarity: (Vector, Vector) -> real)
    ensures IsBestMatch(rows, query, similarity, BestMatch(rows, query, similarity))
  {
    if rows != [] {
      var front, r := rows[..|rows| - 1], rows[|rows| - 1];
      BestMatchIsBest(front, query, similarity);
      var m, m' := BestMatch(front, query, similarity), BestMatch(rows, query, similarity);
      assert rows == front + [r];
      if m' == m {
        if m.best.Some? {
          var i :| BestAt(front, query, similarity, m, i);
          assert BestAt(rows, query, similarity, m, i);
        }
      } else {
        forall j | 0 <= j < |front| && Comparable(front[j], query)
          ensures similarity(query, front[j].vector.values) < m'.similarity
        {
          assert front[j] in front;
        }
        assert BestAt(rows, query, similarity, m', |front|);
      }
    }
  }

  /** `check_duplicate`. */
  method CheckDuplicate(t: Table, query: Vector, layer: string, similarity: (Vector, Vector) -> real) returns (m: Match)
    ensures m == BestMatch(DedupCandidates(t, layer), query, similarity)
  {
    m := Match(None, 0.0);
    var rows := DedupCandidates(t, layer);
    for i := 0 to |rows|
      invariant m == BestMatch(rows[..i], query, similarity)
    {
      assert rows[..i + 1][..i] == rows[..i];
      if !Comparable(rows[i], query) {
        continue;
      }
      var sim := similarity(query, rows[i].vector.values);
      if sim > m.similarity {
        m := Match(Some(rows[i]), sim);
      }
    }
    assert rows[..|rows|] == rows;
  }

  /** `find_exact_duplicate`. */
  method FindExactDuplicate(t: Table, content: string, layer: string, project: string, query: Option<Vector>,
                            touched: NoteRow -> string)
    returns (r: Option<NoteRow>)
    ensures r == FirstCompatible(ExactCandidates(t, content, layer, project, touched), query)
  {
    var rows := ExactCandidates(t, content, layer, project, touched);
    assert rows[0..] == rows;
    for i := 0 to |rows|
      invariant FirstCompatible(rows, query) == FirstCompatible(rows[i..], query)
    {
      if VectorCompatible(rows[i].vector, query) {
        return Some(rows[i]);
      }
      assert rows[i..][1..] == rows[i + 1..];
    }
    assert rows[|rows|..] == [];
    r := None;
  }

  // ---- topic keys ----

  function Utf8Length(c: char): nat {
    if c < '\U{80}' then 1 else if c < '\U{800}' then 2 else if c < '\U{10000}' then 3 else 4
  }

  /** `safe_text_prefix`: the longest prefix of whole characters within the byte limit. */
  function SafePrefix(s: string, maxBytes: nat): string {
    if s == "" || Utf8Length(s[0]) > maxBytes then "" else [s[0]] + SafePrefix(s[1..], maxBytes - Utf8Length(s[0]))
  }

  function NewlinesToSpaces(s: string): string {
    seq(|s|, i requires 0 <= i < |s| => if s[i] == '\n' then ' ' else s[i])
  }

  function BuildTopicKey(layer: string, content: string): string {
    layer + ":" + NewlinesToSpaces(SafePrefix(content, TOPIC_PREFIX_BYTES))
  }

  /** `read_note_topic_key`. */
  function TopicKeyOf(t: Table, id: string): Option<string> {
    var r := Find(t, id);
    if r.Some? then r.value.topicKey else None
  }

  /** `decide_topic_key`: the superseded note's key, else a close match's key, else a fresh one. */
  function DecideTopicKey(t: Table, layer: string, content: string, superseded: seq<string>, m: Match): Option<string> {
    if layer == EVENT_LAYER then None
    else
      var inherited := if superseded != [] then TopicKeyOf(t, superseded[0]) else None;
      var near :=
        if m.best.Some? && m.similarity >= TOPIC_INHERIT_THRESHOLD then TopicKeyOf(t, m.best.value.id) else None;
      inherited.Or(near).Or(Some(BuildTopicKey(layer, content)))
  }

  // ---- adding ----

  function SupersededBy(m: Match): seq<string> {
    if m.best.Some? && m.similarity >= AUTO_SUPERSEDE_THRESHOLD then [m.best.value.id] else []
  }

  function MarkedSuperseded(r: NoteRow): NoteRow {
    r.(evolutionState := Some("superseded"), isHead := false, isActive := false)
  }

  function Supersede(t: Table, id: string): Table {
    UpdateWhere(t, (r: NoteRow) => r.id == id, (r: NoteRow) => MarkedSuperseded(r))
  }

  /** The flag updates of a hard cross-layer contradiction, after the commit. */
  function CrossLayer(t: Table, hits: set<string>): Table {
    UpdateWhere(t, (r: NoteRow) => r.id in hits, (r: NoteRow) => MarkedSuperseded(r))
  }

  function NewRow(project: string, p: Params, e: Env, topicKey: Option<string>): NoteRow {
    NoteRow(e.newId, Trim(p.content), LayerOf(p, e), CategoryOf(p, e), p.room, Some(project),
            if e.flagged then Some("ai_proposal") else p.source, false, true, true, Some("active"), topicKey, p.rootId,
            Some(e.now), if e.embedding.Some? then Present(e.embedding.value) else Missing, None, e.metadata)
  }

  /** The verdict before anything is written. */
  function Rejects(t: Table, project: string, p: Params, e: Env): Option<AddResult> {
    var content, layer := Trim(p.content), LayerOf(p, e);
    if content == "" then Some(Failed(EmptyContent))
    else if layer == IDENTITY_LAYER then Some(Failed(IdentityLayer))
    else if layer == FACT_LAYER && !e.policyAllows then Some(PolicySkipped(layer))
    else if e.embedding.Some? && |e.embedding.value| != EMBEDDING_DIM then Some(Failed(WrongDimension))
    else if layer == EVENT_LAYER then None
    else
      var exact := FirstCompatible(ExactCandidates(t, content, layer, project, e.touched), e.embedding);
      var m := Nearest(t, p, e);
      if exact.Some? then Some(Duplicate(exact.value.id))
      else if m.similarity > DEDUP_SIMILARITY_THRESHOLD && m.best.Some? then Some(Duplicate(m.best.value.id))
      else None
  }

  function Nearest(t: Table, p: Params, e: Env): Match {
    if LayerOf(p, e) == EVENT_LAYER || e.embedding.None? then Match(None, 0.0)
    else BestMatch(DedupCandidates(t, LayerOf(p, e)), e.embedding.value, e.similarity)
  }

  function RowToWrite(t: Table, project: string, p: Params, e: Env): NoteRow {
    var m := Nearest(t, p, e);
    NewRow(project, p, e, p.topicKey.Or(DecideTopicKey(t, LayerOf(p, e), Trim(p.content), SupersededBy(m), m)))
  }

  /** The table after the inserts and the supersede marks of an accepted call. */
  function Written(t: Table, project: string, p: Params, e: Env): Table {
    var inserted := Upsert(t, RowToWrite(t, project, p, e));
    var gone := SupersededBy(Nearest(t, p, e));
    if gone == [] then inserted else Supersede(inserted, gone[0])
  }

  /** `add_memory_inner` as one step on the state. */
  function Add(s: HotState, project: string, p: Params, e: Env): (HotState, AddResult) {
    var no := Rejects(s.notes, project, p, e);
    if no.Some? then (s, no.value)
    else if e.upsertFails then (s, Failed(UpsertFailed))
    else if e.coldStorageFails then (s, Failed(ColdStorageFailed))
    else
      var t := Written(s.notes, project, p, e);
      var scanned := if LayerOf(p, e) != EVENT_LAYER && e.embedding.Some? then CrossLayer(t, e.crossLayerHits) else t;
      (s.(notes := scanned), Saved(e.newId, LayerOf(p, e), SupersededBy(Nearest(s.notes, p, e))))
  }

  // ---- checkpoints ----

  datatype Checkpoint = Checkpoint(taskId: string, content: string, metadata: string)

  datatype CheckpointResult = Kept(id: string) | CheckpointFailed(why: Failure)

  predicate SameCheckpoint(r: NoteRow, c: Checkpoint, project: string) {
    r.isActive && r.layer == EVENT_LAYER && r.content == c.content && r.checkpointTask == Some(c.taskId)
        && r.projectId == Some(project)
  }

  /** The idempotency probe: the first few rows of the same checkpoint, most recently touched first. */
  function Probe(t: Table, c: Checkpoint, project: string, touched: NoteRow -> string): (r: seq<NoteRow>)
    ensures forall x <- r :: x in t && SameCheckpoint(x, c, project)
  {
    var rows := SelectWhere(t, (x: NoteRow) => SameCheckpoint(x, c, project));
    MembersOfSort(rows, (a: NoteRow, b: NoteRow) => TouchedLater(touched, a, b));
    Take(Sort(rows, (a: NoteRow, b: NoteRow) => TouchedLater(touched, a, b)), CHECKPOINT_PROBE_LIMIT)
  }

  function FirstWithMetadata(rows: seq<NoteRow>, metadata: string): Option<NoteRow> {
    if rows == [] then None
    else if rows[0].metadata == metadata then Some(rows[0])
    else FirstWithMetadata(rows[1..], metadata)
  }

  predicate ActiveCheckpoint(r: NoteRow, taskId: string) {
    r.isActive && r.layer == EVENT_LAYER && r.checkpointTask == Some(taskId)
  }

  /** `deactivate_checkpoints_by_task_id`. */
  function Deactivate(t: Table, taskId: string, keep: Option<string>): Table {
    UpdateWhere(t, (r: NoteRow) => ActiveCheckpoint(r, taskId) && keep != Some(r.id),
                (r: NoteRow) => r.(isActive := false))
  }

  function CheckpointRow(project: string, c: Checkpoint, e: Env): NoteRow {
    NoteRow(e.newId, c.content, EVENT_LAYER, Some("event"), None, Some(project), Some("user"), false, true, true,
            Some("active"), None, None, Some(e.now),
            if e.embedding.Some? then Present(e.embedding.value) else Missing, Some(c.taskId), c.metadata)
  }

  /** `save_checkpoint` as one step on the state. */
  function Save(s: HotState, project: string, c: Checkpoint, e: Env): (HotState, CheckpointResult) {
    var same := FirstWithMetadata(Probe(s.notes, c, project, e.touched), c.metadata);
    if same.Some? then (s.(notes := Deactivate(s.notes, c.taskId, Some(same.value.id))), Kept(same.value.id))
    else if e.upsertFails then (s, CheckpointFailed(UpsertFailed))
    else if e.coldStorageFails then (s, CheckpointFailed(ColdStorageFailed))
    else (s.(notes := Upsert(Deactivate(s.notes, c.taskId, None), CheckpointRow(project, c, e))), Kept(e.newId))
  }

  // ---- the service ----

  class Orchestrator {
    const store: Store
    const projectId: string

    constructor (store: Store, projectId: string)
      ensures this.store == store && this.projectId == projectId
    {
      this.store, this.projectId := store, projectId;
    }

    /** `add_memory_inner`: every failure inside the transaction rolls it back. */
    method AddMemory(p: Params, e: Env) returns (r: AddResult)
      requires store.saved.None?
      modifies store
      ensures (store.State(), r) == Add(old(store.State()), projectId, p, e)
      ensures store.saved.None?
    {
      hide Trim, ExactCandidates, DedupCandidates, BestMatch, FirstCompatible, Upsert, BuildTopicKey, Supersede,
          CrossLayer;
      var content := Trim(p.content);
      if content == "" {
        return Failed(EmptyContent);
      }
      var layer := LayerOf(p, e);
      if layer == IDENTITY_LAYER {
        return Failed(IdentityLayer);
      }
      if layer == FACT_LAYER && !e.policyAllows {
        return PolicySkipped(layer);
      }
      if e.embedding.Some? && |e.embedding.value| != EMBEDDING_DIM {
        return Failed(WrongDimension);
      }
      var supersededIds: seq<string> := [];
      var m := Match(None, 0.0);
      if layer != EVENT_LAYER {
        var exact := FindExactDuplicate(store.notes, content, layer, projectId, e.embedding, e.touched);
        if exact.Some? {
          return Duplicate(exact.value.id);
        }
        if e.embedding.Some? {
          m := CheckDuplicate(store.notes, e.embedding.value, layer, e.similarity);
          if m.similarity > DEDUP_SIMILARITY_THRESHOLD && m.best.Some? {
            return Duplicate(m.best.value.id);
          }
          if m.similarity >= AUTO_SUPERSEDE_THRESHOLD && m.best.Some? {
            supersededIds := [m.best.value.id];
          }
        }
      }
      assert m == Nearest(store.notes, p, e) && supersededIds == SupersededBy(m);
      var topicKey := p.topicKey.Or(DecideTopicKey(store.notes, layer, content, supersededIds, m));
      var row := NewRow(projectId, p, e, topicKey);
      assert row == RowToWrite(store.notes, projectId, p, e);
      SupersededIsStored(store.notes, p, e);
      UpsertKeepsIds(store.notes, row);
      r := WriteInTransaction(row, supersededIds, e);
      if r.Saved? && layer != EVENT_LAYER && e.embedding.Some? {
        store.notes := CrossLayer(store.notes, e.crossLayerHits);
      }
    }

    /** The transaction of `add_memory_inner`. */
    method WriteInTransaction(row: NoteRow, supersededIds: seq<string>, e: Env) returns (r: AddResult)
      requires store.saved.None? && |supersededIds| <= 1
      modifies store
      ensures store.saved.None? && store.changes == old(store.changes)
      ensures r == if e.upsertFails then Failed(UpsertFailed)
                   else if supersededIds != [] && !HasId(Upsert(old(store.notes), row), supersededIds[0])
                       then Failed(SupersedeFailed)
                   else if e.coldStorageFails then Failed(ColdStorageFailed)
                   else Saved(row.id, row.layer, supersededIds)
      ensures store.notes ==
              if !r.Saved? then old(store.notes)
              else if supersededIds == [] then Upsert(old(store.notes), row)
              else Supersede(Upsert(old(store.notes), row), supersededIds[0])
    {
      store.Begin();
      if e.upsertFails {
        store.Rollback();
        return Failed(UpsertFailed);
      }
      store.notes := Upsert(store.notes, row);
      hide Upsert;
      if supersededIds != [] {
        if !HasId(store.notes, supersededIds[0]) {
          store.Rollback();
          return Failed(SupersedeFailed);
        }
        store.notes := Supersede(store.notes, supersededIds[0]);
      }
      if e.coldStorageFails {
        store.Rollback();
        return Failed(ColdStorageFailed);
      }
      store.Commit();
      r := Saved(row.id, row.layer, supersededIds);
    }

    /** `save_checkpoint`: at most one active checkpoint per task. */
    method SaveCheckpoint(c: Checkpoint, e: Env) returns (r: CheckpointResult)
      requires store.saved.None?
      modifies store
      ensures (store.State(), r) == Save(old(store.State()), projectId, c, e)
      ensures store.saved.None?
    {
      hide Probe, Upsert, Deactivate;
      store.Begin();
      var existing := Probe(store.notes, c, projectId, e.touched);
      var same := FindSame(existing, c.metadata);
      if same.Some? {
        store.notes := Deactivate(store.notes, c.taskId, Some(same.value.id));
        store.Commit();
        return Kept(same.value.id);
      }
      store.notes := Deactivate(store.notes, c.taskId, None);
      if e.upsertFails {
        store.Rollback();
        return CheckpointFailed(UpsertFailed);
      }
      store.notes := Upsert(store.notes, CheckpointRow(projectId, c, e));
      if e.coldStorageFails {
        store.Rollback();
        return CheckpointFailed(ColdStorageFailed);
      }
      store.Commit();
      r := Kept(e.newId);
    }
  }

  method FindSame(rows: seq<NoteRow>, metadata: string) returns (r: Option<NoteRow>)
    ensures r == FirstWithMetadata(rows, metadata)
  {
    assert rows[0..] == rows;
    for i := 0 to |rows|
      invariant FirstWithMetadata(rows, metadata) == FirstWithMetadata(rows[i..], metadata)
    {
      if rows[i].metadata == metadata {
        return Some(rows[i]);
      }
      assert rows[i..][1..] == rows[i + 1..];
    }
    r := None;
  }

  lemma UpsertKeepsIds(t: Table, row: NoteRow)
    ensures forall id | HasId(t, id) :: HasId(Upsert(t, row), id)
    ensures HasId(Upsert(t, row), row.id)
  {
    var u := Upsert(t, row);
    forall id | HasId(t, id) ensures HasId(u, id) {
      var i :| 0 <= i < |t| && t[i].id == id;
      assert u[i].id == id && u[i] in u;
    }
    if !HasId(t, row.id) {
      assert u[|t|].id == row.id && u[|t|] in u;
    }
  }

  /** The match is a stored, active row of the layer being written. */
  lemma NearestIsStored(t: Table, p: Params, e: Env)
    ensures var m := Nearest(t, p, e);
            m.best.Some? ==> m.best.value in t && m.best.value.isActive && m.best.value.layer == LayerOf(p, e)
  {
    if LayerOf(p, e) != EVENT_LAYER && e.embedding.Some? {
      var rows := DedupCandidates(t, LayerOf(p, e));
      BestMatchIsBest(rows, e.embedding.value, e.similarity);
      var m := Nearest(t, p, e);
      if m.best.Some? {
        var i :| BestAt(rows, e.embedding.value, e.similarity, m, i);
        assert m.best.value in rows;
      }
    }
  }

  lemma SupersededIsStored(t: Table, p: Params, e: Env)
    ensures forall id <- SupersededBy(Nearest(t, p, e)) :: HasId(t, id)
  {
    NearestIsStored(t, p, e);
  }

  // ---- what the verdicts mean ----

  /** The call gets past every guard that does not look at stored notes. */
  predicate Writable(p: Params, e: Env) {
    && Trim(p.content) != ""
    && LayerOf(p, e) !in {IDENTITY_LAYER, EVENT_LAYER}
    && (LayerOf(p, e) == FACT_LAYER ==> e.policyAllows)
    && (e.embedding.Some? ==> |e.embedding.value| == EMBEDDING_DIM)
  }

  ghost predicate SomeCandidate(t: Table, p: Params, e: Env, enough: real -> bool) {
    e.embedding.Some? && exists r <- DedupCandidates(t, LayerOf(p, e)) ::
      Comparable(r, e.embedding.value) && enough(e.similarity(e.embedding.value, r.vector.values))
  }

  lemma {:induction false} FirstCompatibleExactly(rows: seq<NoteRow>, query: Option<Vector>)
    ensures FirstCompatible(rows, query).Some? <==> exists r <- rows :: VectorCompatible(r.vector, query)
  {
    if rows != [] {
      FirstCompatibleExactly(rows[1..], query);
      assert forall r :: r in rows <==> r == rows[0] || r in rows[1..];
    }
  }

  /** The best match passes a positive threshold exactly when some candidate does. */
  lemma NearestReaches(t: Table, p: Params, e: Env, enough: real -> bool)
    requires LayerOf(p, e) != EVENT_LAYER
    requires !enough(0.0) && forall x, y :: x <= y && enough(x) ==> enough(y)
    ensures var m := Nearest(t, p, e); m.best.Some? && enough(m.similarity) <==> SomeCandidate(t, p, e, enough)
  {
    hide LayerOf, DedupCandidates, BestMatch;
    if e.embedding.Some? {
      var rows, m := DedupCandidates(t, LayerOf(p, e)), Nearest(t, p, e);
      BestMatchIsBest(rows, e.embedding.value, e.similarity);
      if m.best.Some? {
        var i :| BestAt(rows, e.embedding.value, e.similarity, m, i);
        assert rows[i] in rows;
      }
    }
  }

  /**
   * Past the guards a note is turned away exactly when an exact copy with a compatible vector is stored or some
   * candidate is more similar than the duplicate threshold; otherwise it supersedes exactly when one reaches the lower.
   */
  lemma DuplicateExactly(t: Table, project: string, p: Params, e: Env)
    requires Writable(p, e)
    ensures Rejects(t, project, p, e).Some? <==>
              || (exists r <- ExactCandidates(t, Trim(p.content), LayerOf(p, e), project, e.touched) ::
                    VectorCompatible(r.vector, e.embedding))
              || SomeCandidate(t, p, e, x => x > DEDUP_SIMILARITY_THRESHOLD)
    ensures SupersededBy(Nearest(t, p, e)) != [] <==> SomeCandidate(t, p, e, x => x >= AUTO_SUPERSEDE_THRESHOLD)
  {
    hide Trim, LayerOf, Nearest, SomeCandidate, ExactCandidates, FirstCompatible, VectorCompatible;
    FirstCompatibleExactly(ExactCandidates(t, Trim(p.content), LayerOf(p, e), project, e.touched), e.embedding);
    NearestReaches(t, p, e, x => x > DEDUP_SIMILARITY_THRESHOLD);
    NearestReaches(t, p, e, x => x >= AUTO_SUPERSEDE_THRESHOLD);
  }

  lemma {:induction false} FirstWithMetadataIs(rows: seq<NoteRow>, metadata: string)
    ensures var r := FirstWithMetadata(rows, metadata); r.Some? ==> r.value in rows && r.value.metadata == metadata
  {
    if rows != [] { FirstWithMetadataIs(rows[1..], metadata); }
  }

  /** After a successful save the task has one active checkpoint, the one whose id was answered, with that content. */
  lemma OneActiveCheckpoint(s: HotState, project: string, c: Checkpoint, e: Env)
    requires DistinctIds(s.notes) && !HasId(s.notes, e.newId)
    ensures var (s', r) := Save(s, project, c, e);
            r.Kept? ==>
              && (exists x <- s'.notes :: x.id == r.id && x.content == c.content && x.metadata == c.metadata)
              && forall x <- s'.notes :: ActiveCheckpoint(x, c.taskId) <==> x.id == r.id
  {
    var t := s.notes;
    var same := FirstWithMetadata(Probe(t, c, project, e.touched), c.metadata);
    FirstWithMetadataIs(Probe(t, c, project, e.touched), c.metadata);
    hide Probe, FirstWithMetadata;
    if same.Some? {
      KeptCheckpoint(t, c, project, same.value);
    } else {
      NewCheckpoint(t, CheckpointRow(project, c, e), c.taskId);
    }
  }

  lemma KeptCheckpoint(t: Table, c: Checkpoint, project: string, kept: NoteRow)
    requires DistinctIds(t) && kept in t && SameCheckpoint(kept, c, project)
    ensures kept in Deactivate(t, c.taskId, Some(kept.id))
    ensures forall x <- Deactivate(t, c.taskId, Some(kept.id)) :: ActiveCheckpoint(x, c.taskId) <==> x.id == kept.id
  {
    var u := Deactivate(t, c.taskId, Some(kept.id));
    var k :| 0 <= k < |t| && t[k] == kept;
    assert u[k] == kept;
    forall x <- u ensures ActiveCheckpoint(x, c.taskId) <==> x.id == kept.id {
      var i :| 0 <= i < |u| && u[i] == x;
      assert t[i].id == x.id;
    }
  }

  lemma NewCheckpoint(t: Table, row: NoteRow, taskId: string)
    requires !HasId(t, row.id) && ActiveCheckpoint(row, taskId)
    ensures var u := Upsert(Deactivate(t, taskId, None), row);
            && (exists x <- u :: x.id == row.id && x.content == row.content && x.metadata == row.metadata)
            && forall x <- u :: ActiveCheckpoint(x, taskId) <==> x.id == row.id
  {
    var quiet := Deactivate(t, taskId, None);
    forall x <- quiet ensures x.id != row.id && !ActiveCheckpoint(x, taskId) {
      var i :| 0 <= i < |quiet| && quiet[i] == x;
      assert t[i] in t;
    }
    var u := Upsert(quiet, row);
    assert u[|quiet|] in u;
    assert forall x <- u :: x in quiet || x == u[|quiet|];
  }
}
