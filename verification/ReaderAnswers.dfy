/** What the canonical reader answers, column by column. */
module ReaderAnswers {
  import opened Common
  import opened Text
  import opened Notes
  import opened CanonicalReader

  /** `is_head = 1`, `is_active = 1`, and an evolution state that is absent or 'active'. */
  predicate IsLive(r: NoteRow) {
    r.isHead && r.isActive && (r.evolutionState.None? || r.evolutionState == Some("active"))
  }

  predicate Carries(r: NoteRow, field: Field, v: string) {
    match field
    case RootId => r.rootId == Some(v)
    case TopicKey => r.topicKey == Some(v)
  }

  /** `a` stands in front of `b`: created later, or at the same time under the smaller id. */
  ghost predicate InFront(a: NoteRow, b: NoteRow) {
    var ca := if a.createdAt.Some? then a.createdAt.value else "";
    var cb := if b.createdAt.Some? then b.createdAt.value else "";
    (exists k: nat :: LessAt(cb, ca, k)) || (ca == cb && exists k: nat :: LessAt(a.id, b.id, k))
  }

  ghost predicate IsHeadOf(t: Table, field: Field, v: string, h: NoteRow) {
    && h in t && IsLive(h) && Carries(h, field, v)
    && forall r <- t | IsLive(r) && Carries(r, field, v) && r != h :: InFront(h, r)
  }

  lemma NewerIsInFront(a: NoteRow, b: NoteRow)
    requires Newer(a, b)
    ensures InFront(a, b)
  {
    StrLtExactly(b.createdAt.GetOr(""), a.createdAt.GetOr(""));
    StrLtExactly(a.id, b.id);
  }

  /** A value has a head iff some live row carries it, and then it is the one in front of all others. */
  lemma HeadExactly(t: Table, field: Field, v: string)
    requires DistinctIds(t)
    ensures NewestHead(t, field, v).Some? <==> exists r <- t :: IsLive(r) && Carries(r, field, v)
    ensures NewestHead(t, field, v).Some? ==> IsHeadOf(t, field, v, NewestHead(t, field, v).value)
  {
    NewestHeadIsNewest(t, field, v);
    assert forall r :: HeadOf(r, field, v) <==> IsLive(r) && Carries(r, field, v);
    hide NewestHead, InFront, Newer, HeadOf, IsLive, Carries;
    if NewestHead(t, field, v).Some? {
      var h := NewestHead(t, field, v).value;
      forall r <- t | IsLive(r) && Carries(r, field, v) && r != h ensures InFront(h, r) {
        NewerIsInFront(h, r);
      }
    }
  }

  /** Root route before topic route before miss. */
  ghost predicate Answers(t: Table, root: Option<string>, topic: Option<string>, read: Read) {
    if root.Some? && exists r <- t :: IsLive(r) && Carries(r, RootId, root.value) then
      read.source == Canonical && read.note.Some? && IsHeadOf(t, RootId, root.value, read.note.value)
    else if topic.Some? && exists r <- t :: IsLive(r) && Carries(r, TopicKey, topic.value) then
      read.source == TopicKeyFallback && read.note.Some? && IsHeadOf(t, TopicKey, topic.value, read.note.value)
    else
      read.source == Miss && read.note.None?
  }

  /** The seed's own value if it is not blank, else the stored row's if that is not; trimmed either way. */
  ghost predicate Effective(own: Option<string>, stored: Option<string>, value: Option<string>) {
    if own.Some? && !IsBlank(own.value) then value == Some(Trim(own.value))
    else if stored.Some? && !IsBlank(stored.value) then value == Some(Trim(stored.value))
    else value.None?
  }

  /** Some seed of the batch names this note and lacks its root or its topic. */
  predicate AskedFor(seeds: seq<Seed>, id: string) {
    id != "" && exists s <- seeds ::
      (s.rootId.None? || s.topicKey.None?) && s.noteId.Some? && Trim(s.noteId.value) == id
  }

  /** The stored row a seed's missing fields are taken from. */
  function Consulted(t: Table, seeds: seq<Seed>, seed: Seed): Option<NoteRow> {
    if seed.noteId.Some? && AskedFor(seeds, Trim(seed.noteId.value)) then Find(t, Trim(seed.noteId.value)) else None
  }

  lemma NormalizedIs(own: Option<string>, stored: Option<string>)
    ensures Effective(own, stored, Normalized(own).Or(Normalized(stored)))
  {
    if own.Some? { TrimOfBlank(own.value); }
    if stored.Some? { TrimOfBlank(stored.value); }
  }

  lemma ReadLineageAnswers(t: Table, l: Lineage)
    requires DistinctIds(t)
    ensures Answers(t, l.rootId, l.topicKey, ReadLineage(t, l))
  {
    if l.rootId.Some? { HeadExactly(t, RootId, l.rootId.value); }
    if l.topicKey.Some? { HeadExactly(t, TopicKey, l.topicKey.value); }
    hide NewestHead, IsHeadOf, IsLive, Carries;
  }

  lemma ConsultedLineage(t: Table, seeds: seq<Seed>, seed: Seed)
    ensures var id := Normalized(seed.noteId);
            var stored := if id.Some? && LookedUp(seeds, id.value) then LineageOfId(t, id.value) else None;
            var row := Consulted(t, seeds, seed);
            stored ==
            if row.Some? then Some(Lineage(Normalized(row.value.rootId), Normalized(row.value.topicKey))) else None
  {
    var id := Normalized(seed.noteId);
    if seed.noteId.Some? {
      assert forall s <- seeds :: LooksUp(s) && Normalized(s.noteId) == Some(Trim(seed.noteId.value)) <==>
        (s.rootId.None? || s.topicKey.None?) && s.noteId.Some? && Trim(s.noteId.value) == Trim(seed.noteId.value)
        && Trim(seed.noteId.value) != "";
    }
    hide Trim, Find;
  }

  /** The answer of a batch to one of its seeds. */
  lemma BatchReadExactly(t: Table, seeds: seq<Seed>, seed: Seed) returns (root: Option<string>, topic: Option<string>)
    requires DistinctIds(t)
    ensures var row := Consulted(t, seeds, seed);
            && Effective(seed.rootId, if row.Some? then row.value.rootId else None, root)
            && Effective(seed.topicKey, if row.Some? then row.value.topicKey else None, topic)
    ensures Answers(t, root, topic, BatchRead(t, seeds, seed))
  {
    ConsultedLineage(t, seeds, seed);
    var row := Consulted(t, seeds, seed);
    var storedRoot := if row.Some? then row.value.rootId else None;
    var storedTopic := if row.Some? then row.value.topicKey else None;
    NormalizedIs(seed.rootId, storedRoot);
    NormalizedIs(seed.topicKey, storedTopic);
    root := Normalized(seed.rootId).Or(Normalized(storedRoot));
    topic := Normalized(seed.topicKey).Or(Normalized(storedTopic));
    ReadLineageAnswers(t, Lineage(root, topic));
    hide Normalized, Answers, ReadLineage, Consulted, Effective;
  }

  /** What a stored row's own lineage reads as, which is what search and activation follow. */
  lemma RowReadExactly(t: Table, row: NoteRow) returns (root: Option<string>, topic: Option<string>)
    requires DistinctIds(t)
    ensures Effective(row.rootId, None, root) && Effective(row.topicKey, None, topic)
    ensures Answers(t, root, topic, ReadLineage(t, LineageOfRow(row)))
  {
    NormalizedIs(row.rootId, None);
    NormalizedIs(row.topicKey, None);
    root, topic := Normalized(row.rootId), Normalized(row.topicKey);
    ReadLineageAnswers(t, Lineage(root, topic));
    hide Normalized, Answers, ReadLineage, Effective;
  }
}
