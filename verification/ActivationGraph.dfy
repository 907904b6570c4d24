/** The note graph that activation spreads over, and the walks that give an activated note its meaning. */
module ActivationGraph {
  import opened Common
  import opened Text
  import opened Notes
  import opened CanonicalReader
  import opened ReaderLaws
  import opened Results

  const RELATION_TYPES := {"supports", "refines", "overlaps", "co_activated"}
  const DREAM_RELATION := "dreaming_evidence"
  const STRENGTH_THRESHOLD: real := 0.4
  const WEIGHT: real := 0.3
  const MAX_HOPS: nat := 3

  datatype Relation = Relation(fromId: string, toId: string, kind: string, strength: real)

  /** A promoted dream candidate as the dream query returns it for a source. */
  datatype Dream = Dream(id: string, confidence: real, evidenceIds: seq<string>, promotedTo: Option<string>)

  datatype Params = Params(
    onlyActive: bool,
    layer: Option<string>,
    category: Option<string>,
    room: Option<string>,
    projectId: Option<string>,
    crossProject: bool,
    includeConstitution: bool)

  /** `dreams` gives the rows of the dream query per source id; the other tables are concrete. */
  datatype Graph = Graph(
    notes: Table,
    relations: seq<Relation>,
    dreams: string -> seq<Dream>,
    hasRelations: bool,
    hasDreams: bool,
    params: Params,
    direct: seq<SearchResult>,
    seenTopics: set<string>)

  datatype Neighbor = Neighbor(sourceId: string, relationType: string, strength: real, dreamId: Option<string>,
                               note: NoteRow)

  /** The end of a relation that a source is matched against. */
  function Near(e: Relation, outgoing: bool): string {
    if outgoing then e.fromId else e.toId
  }

  /** One half of the `UNION ALL`: relations leaving (or entering) the source, joined with the other end. */
  function JoinRelations(notes: Table, relations: seq<Relation>, source: string, outgoing: bool): (r: seq<Neighbor>)
    ensures forall nb <- r :: nb.sourceId == source && nb.note in notes && nb.strength > STRENGTH_THRESHOLD
    ensures forall nb <- r :: exists e <- relations ::
              e.strength == nb.strength && Near(e, outgoing) == source && Near(e, !outgoing) == nb.note.id
  {
    if relations == [] then []
    else
      var e := relations[0];
      var near, far := Near(e, outgoing), Near(e, !outgoing);
      var row := Find(notes, far);
      assert e in relations;
      (if near == source && e.kind in RELATION_TYPES && e.strength > STRENGTH_THRESHOLD && row.Some?
       then [Neighbor(source, e.kind, e.strength, None, row.value)] else [])
      + JoinRelations(notes, relations[1..], source, outgoing)
  }

  /**
   * The relation joins the source to the neighbour: a known type, strong enough, with a stored note at the other end.
   */
  predicate Joins(notes: Table, e: Relation, source: string, outgoing: bool, nb: Neighbor) {
    && Near(e, outgoing) == source
    && e.kind in RELATION_TYPES
    && e.strength > STRENGTH_THRESHOLD
    && Find(notes, Near(e, !outgoing)) == Some(nb.note)
    && nb == Neighbor(source, e.kind, e.strength, None, nb.note)
  }

  /** The query answers exactly the neighbours that some relation joins to the source. */
  lemma {:induction false} JoinRelationsExactly(notes: Table, relations: seq<Relation>, source: string,
                                                outgoing: bool, nb: Neighbor)
    ensures nb in JoinRelations(notes, relations, source, outgoing) <==>
            exists e <- relations :: Joins(notes, e, source, outgoing, nb)
  {
    if relations != [] {
      JoinRelationsExactly(notes, relations[1..], source, outgoing, nb);
      var e := relations[0];
      var row := Find(notes, Near(e, !outgoing));
      var near := Near(e, outgoing) == source;
      var hit := near && e.kind in RELATION_TYPES && e.strength > STRENGTH_THRESHOLD && row.Some?;
      var here := if hit then [Neighbor(source, e.kind, e.strength, None, row.value)] else [];
      assert JoinRelations(notes, relations, source, outgoing) ==
             here + JoinRelations(notes, relations[1..], source, outgoing);
      assert nb in here <==> Joins(notes, e, source, outgoing, nb);
      hide Joins;
      assert forall x :: x in relations <==> x == e || x in relations[1..];
    }
  }

  function TrimmedIds(ids: seq<string>): seq<string> {
    if ids == [] then []
    else (if Trim(ids[0]) != "" then [Trim(ids[0])] else []) + TrimmedIds(ids[1..])
  }

  function WithoutId(ids: seq<string>, id: string): seq<string> {
    if ids == [] then []
    else (if ids[0] != id then [ids[0]] else []) + WithoutId(ids[1..], id)
  }

  function NeighborsAt(notes: Table, ids: seq<string>, source: string, strength: real, dreamId: string)
    : (r: seq<Neighbor>)
    ensures forall nb <- r :: nb.sourceId == source && nb.note in notes && nb.strength == strength
  {
    if ids == [] then []
    else
      var row := Find(notes, ids[0]);
      (if row.Some? then [Neighbor(source, DREAM_RELATION, strength, Some(dreamId), row.value)] else [])
      + NeighborsAt(notes, ids[1..], source, strength, dreamId)
  }

  /** What a promoted candidate links the source to: its evidence, or what the source became evidence for. */
  function DreamTargets(d: Dream, source: string): seq<string>
    requires d.promotedTo.Some?
  {
    var evidence, target := TrimmedIds(d.evidenceIds), d.promotedTo.value;
    (if target == source then WithoutId(evidence, source) else [])
    + (if source in evidence && target != source then [target] else [])
  }

  /** The post-processing loop of `dreaming_activation_neighbors_for_source`. */
  function JoinDreams(notes: Table, dreams: seq<Dream>, source: string): (r: seq<Neighbor>)
    ensures forall nb <- r :: nb.sourceId == source && nb.note in notes && STRENGTH_THRESHOLD < nb.strength <= 1.0
  {
    if dreams == [] then []
    else
      var d := dreams[0];
      var strength := Clamp(d.confidence, 0.0, 1.0);
      var evidence := TrimmedIds(d.evidenceIds);
      var here :=
        if strength <= STRENGTH_THRESHOLD || d.promotedTo.None? || Trim(d.promotedTo.value) == "" || evidence == []
        then []
        else NeighborsAt(notes, DreamTargets(d, source), source, strength, d.id);
      here + JoinDreams(notes, dreams[1..], source)
  }

  /** The id is one of the candidate's evidence ids, whitespace aside. */
  predicate IsEvidence(d: Dream, id: string) {
    id != "" && exists raw <- d.evidenceIds :: Trim(raw) == id
  }

  /** The candidate joins a source to its evidence if it was promoted to the source, and evidence to what it became. */
  predicate DreamJoins(notes: Table, d: Dream, source: string, nb: Neighbor) {
    && Clamp(d.confidence, 0.0, 1.0) > STRENGTH_THRESHOLD
    && d.promotedTo.Some? && Trim(d.promotedTo.value) != ""
    && (if d.promotedTo == Some(source) then nb.note.id != source && IsEvidence(d, nb.note.id)
        else nb.note.id == d.promotedTo.value && IsEvidence(d, source))
    && Find(notes, nb.note.id) == Some(nb.note)
    && nb == Neighbor(source, DREAM_RELATION, Clamp(d.confidence, 0.0, 1.0), Some(d.id), nb.note)
  }

  lemma {:induction false} TrimmedIdsExactly(ids: seq<string>, id: string)
    ensures id in TrimmedIds(ids) <==> id != "" && exists raw <- ids :: Trim(raw) == id
  {
    if ids != [] {
      TrimmedIdsExactly(ids[1..], id);
      assert forall raw :: raw in ids <==> raw == ids[0] || raw in ids[1..];
      assert id in TrimmedIds(ids) <==> (id != "" && Trim(ids[0]) == id) || id in TrimmedIds(ids[1..]);
      hide Trim;
    }
  }

  lemma {:induction false} WithoutIdExactly(ids: seq<string>, id: string, other: string)
    ensures other in WithoutId(ids, id) <==> other in ids && other != id
  {
    if ids != [] {
      WithoutIdExactly(ids[1..], id, other);
      assert forall x :: x in ids <==> x == ids[0] || x in ids[1..];
    }
  }

  lemma {:induction false} NeighborsAtExactly(notes: Table, ids: seq<string>, source: string, strength: real,
                                              dreamId: string, nb: Neighbor)
    ensures nb in NeighborsAt(notes, ids, source, strength, dreamId) <==>
              && nb.note.id in ids && Find(notes, nb.note.id) == Some(nb.note)
              && nb == Neighbor(source, DREAM_RELATION, strength, Some(dreamId), nb.note)
  {
    if ids != [] {
      NeighborsAtExactly(notes, ids[1..], source, strength, dreamId, nb);
      assert forall x :: x in ids <==> x == ids[0] || x in ids[1..];
    }
  }

  /** The loop answers exactly the neighbours that some promoted candidate joins to the source. */
  lemma {:induction false} JoinDreamsExactly(notes: Table, dreams: seq<Dream>, source: string, nb: Neighbor)
    ensures nb in JoinDreams(notes, dreams, source) <==> exists d <- dreams :: DreamJoins(notes, d, source, nb)
  {
    if dreams != [] {
      var d := dreams[0];
      JoinDreamsExactly(notes, dreams[1..], source, nb);
      OneDreamExactly(notes, d, source, nb);
      assert [d][1..] == [];
      assert forall x :: x in dreams <==> x == d || x in dreams[1..];
      hide DreamJoins;
    }
  }

  lemma OneDreamExactly(notes: Table, d: Dream, source: string, nb: Neighbor)
    ensures nb in JoinDreams(notes, [d], source) <==> DreamJoins(notes, d, source, nb)
  {
    hide Trim, Find, Clamp, TrimmedIds, WithoutId, NeighborsAt, IsEvidence;
    assert [d][1..] == [];
    assert JoinDreams(notes, [], source) == [];
    var strength := Clamp(d.confidence, 0.0, 1.0);
    EvidenceIsTrimmed(d, source);
    EvidenceIsTrimmed(d, nb.note.id);
    if d.promotedTo.Some? && TrimmedIds(d.evidenceIds) != [] {
      var targets := DreamTargets(d, source);
      DreamTargetsExactly(d, source, nb.note.id);
      NeighborsAtExactly(notes, targets, source, strength, d.id, nb);
      assert JoinDreams(notes, [d], source) ==
             if strength <= STRENGTH_THRESHOLD || Trim(d.promotedTo.value) == "" then []
             else NeighborsAt(notes, targets, source, strength, d.id);
      hide DreamTargets;
    }
  }

  lemma DreamTargetsExactly(d: Dream, source: string, id: string)
    requires d.promotedTo.Some?
    ensures id in DreamTargets(d, source) <==>
            if d.promotedTo.value == source then id != source && IsEvidence(d, id)
            else id == d.promotedTo.value && IsEvidence(d, source)
  {
    hide TrimmedIds, WithoutId, IsEvidence;
    EvidenceIsTrimmed(d, source);
    EvidenceIsTrimmed(d, id);
    WithoutIdExactly(TrimmedIds(d.evidenceIds), source, id);
  }

  lemma EvidenceIsTrimmed(d: Dream, id: string)
    ensures IsEvidence(d, id) <==> id in TrimmedIds(d.evidenceIds)
  {
    TrimmedIdsExactly(d.evidenceIds, id);
    hide Trim, TrimmedIds;
  }

  function Neighbors(g: Graph, source: string): (r: seq<Neighbor>)
    ensures forall nb <- r :: nb.sourceId == source && nb.note in g.notes && nb.strength > STRENGTH_THRESHOLD
    ensures forall nb <- r :: nb.strength <= 1.0 || exists e <- g.relations :: e.strength == nb.strength
  {
    (if g.hasRelations
     then JoinRelations(g.notes, g.relations, source, true) + JoinRelations(g.notes, g.relations, source, false)
     else [])
    + (if g.hasDreams then JoinDreams(g.notes, g.dreams(source), source) else [])
  }

  /** `evolution_state_is_head`. */
  predicate StateIsHead(state: Option<string>) {
    state != Some("superseded") && state != Some("contradicted")
  }

  /** `activation_note_passes_filters`. */
  predicate PassesFilters(g: Graph, note: NoteRow) {
    var p := g.params;
    && Trusted(g.notes, note.id)
    && (p.onlyActive ==> note.isActive)
    && note.isHead
    && StateIsHead(note.evolutionState)
    && (p.layer.Some? ==> note.layer == p.layer.value)
    && (p.category.Some? ==> note.category == p.category)
    && (p.room.Some? ==> note.room == p.room)
    && (!p.crossProject && p.projectId.Some? ==> note.projectId == p.projectId)
    && (!p.includeConstitution && p.layer != Some(IDENTITY_LAYER) ==> note.layer != IDENTITY_LAYER)
  }

  predicate IsDirect(g: Graph, id: string) {
    exists r <- g.direct :: r.id == id
  }

  /** A note activation may land on: not direct, filter-passing, and of a topic not yet shown. */
  predicate Admits(g: Graph, note: NoteRow) {
    && !IsDirect(g, note.id)
    && PassesFilters(g, note)
    && (note.topicKey.Some? ==> note.topicKey.value !in g.seenTopics)
  }

  function HeadAt(g: Graph, nb: Neighbor): NoteRow {
    Resolve(g.notes, nb.note)
  }

  // ---- walks ----

  datatype Walk = Start(root: SearchResult) | Hop(prefix: Walk, via: Neighbor)

  function End(g: Graph, w: Walk): string {
    match w
    case Start(r) => r.id
    case Hop(_, via) => HeadAt(g, via).id
  }

  /** What a note of this score offers along an edge of this strength. */
  function Offer(score: real, strength: real): real {
    score * strength * WEIGHT
  }

  /** Root score times the product of `strength * WEIGHT` along the walk. */
  function Score(w: Walk): real {
    match w
    case Start(r) => r.score
    case Hop(p, via) => Offer(Score(p), via.strength)
  }

  function Depth(w: Walk): nat {
    match w
    case Start(_) => 0
    case Hop(p, _) => Depth(p) + 1
  }

  function RootOf(w: Walk): string {
    match w
    case Start(r) => r.id
    case Hop(p, _) => RootOf(p)
  }

  function Path(g: Graph, w: Walk): (r: seq<string>)
    ensures |r| == Depth(w) + 1
    ensures r[0] == RootOf(w)
    ensures r[|r| - 1] == End(g, w)
  {
    match w
    case Start(r) => [r.id]
    case Hop(p, via) => Path(g, p) + [HeadAt(g, via).id]
  }

  /** From a direct result along existing edges, each from a trusted note to an admissible head. */
  predicate Valid(g: Graph, w: Walk) {
    match w
    case Start(r) => r in g.direct
    case Hop(p, via) =>
      && Valid(g, p)
      && Trusted(g.notes, End(g, p))
      && via in Neighbors(g, End(g, p))
      && Admits(g, HeadAt(g, via))
  }

  /** No hop follows an edge whose own end is direct or on the path already, wherever that end resolves to. */
  predicate PassesGuards(g: Graph, w: Walk) {
    match w
    case Start(_) => true
    case Hop(p, via) => PassesGuards(g, p) && !IsDirect(g, via.note.id) && via.note.id !in Path(g, p)
  }

  predicate NoRepeats(path: seq<string>) {
    forall i, j | 0 <= i < j < |path| :: path[i] != path[j]
  }

  /** A non-direct end is all a hop can have. */
  lemma HopEndsOffDirect(g: Graph, w: Walk)
    requires Valid(g, w)
    ensures w.Hop? <==> !IsDirect(g, End(g, w))
  {
  }

  lemma {:induction false} PathAfterRootIsAdmitted(g: Graph, w: Walk)
    requires Valid(g, w)
    ensures IsDirect(g, RootOf(w))
    ensures forall k | 1 <= k < |Path(g, w)| :: !IsDirect(g, Path(g, w)[k])
  {
    if w.Hop? { PathAfterRootIsAdmitted(g, w.prefix); }
  }

  lemma OfferPositive(score: real, strength: real)
    requires strength > STRENGTH_THRESHOLD
    ensures Offer(score, strength) > 0.0 <==> score > 0.0
  {
    if score > 0.0 { assert score * strength > 0.0; }
    if score <= 0.0 { assert score * strength <= 0.0; }
  }

  lemma OfferMonotone(a: real, b: real, strength: real)
    requires strength > STRENGTH_THRESHOLD && a >= b
    ensures Offer(a, strength) >= Offer(b, strength)
  {
    assert (a - b) * strength >= 0.0;
  }

  lemma OfferShrinks(score: real, strength: real)
    requires score >= 0.0 && strength * WEIGHT <= 1.0
    ensures Offer(score, strength) <= score
  {
    assert score * strength * WEIGHT == score * (strength * WEIGHT);
    assert score * (1.0 - strength * WEIGHT) >= 0.0;
  }

  // ---- the hypotheses of exactness ----

  /** Every stored row of this id is its own head. */
  predicate OwnHead(g: Graph, id: string) {
    forall row <- g.notes | row.id == id :: HeadId(g, row) == id
  }

  function HeadId(g: Graph, row: NoteRow): string {
    Resolve(g.notes, row).id
  }

  /** No hop may raise a score: relation strengths are not clamped where they are read. */
  predicate Damped(g: Graph) {
    forall e <- g.relations :: e.strength * WEIGHT <= 1.0
  }

  predicate Exact(g: Graph) {
    && Idempotent(g.notes)
    && (forall r <- g.direct :: OwnHead(g, r.id))
    && Damped(g)
  }

  lemma NeighborDamped(g: Graph, source: string, nb: Neighbor)
    requires Damped(g) && nb in Neighbors(g, source)
    ensures nb.strength * WEIGHT <= 1.0
  {
  }

  lemma HeadIsOwn(g: Graph, row: NoteRow)
    requires ValidTable(g.notes) && Idempotent(g.notes) && row in g.notes
    ensures OwnHead(g, HeadId(g, row))
  {
    ResolveStaysInTable(g.notes, row);
    var head := Resolve(g.notes, row);
    forall other <- g.notes | other.id == head.id ensures HeadId(g, other) == head.id {
      SameIdSameRow(g.notes, other, head);
    }
  }

  lemma {:induction false} WalkOwnsHeads(g: Graph, w: Walk)
    requires ValidTable(g.notes) && Exact(g) && Valid(g, w)
    ensures forall p <- Path(g, w) :: OwnHead(g, p)
  {
    if w.Hop? {
      WalkOwnsHeads(g, w.prefix);
      HeadIsOwn(g, w.via.note);
    }
  }
}
