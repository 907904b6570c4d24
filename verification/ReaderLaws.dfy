/** What the canonical reader promises: batches agree with single lookups, and heads resolve to themselves. */
module ReaderLaws {
  import opened Common
  import opened Text
  import opened Notes
  import opened CanonicalReader

  /** The seed either triggers its own row lookup or cannot profit from one. */
  predicate SelfContained(seed: Seed) {
    || LooksUp(seed)
    || Normalized(seed.noteId).None?
    || (Normalized(seed.rootId).Some? && Normalized(seed.topicKey).Some?)
  }

  ghost predicate BatchAgrees(seed: Seed) {
    forall t: Table, seeds: seq<Seed> | DistinctIds(t) && seed in seeds ::
        BatchRead(t, seeds, seed) == SingleRead(t, seed)
  }

  lemma SelfContainedAgrees(t: Table, seeds: seq<Seed>, seed: Seed)
    requires SelfContained(seed) && seed in seeds
    ensures BatchRead(t, seeds, seed) == SingleRead(t, seed)
  {
    var single := SingleSeed(seed);
    assert single in [single];
    var id := Normalized(seed.noteId);
    if id.Some? && LooksUp(seed) {
      assert LookedUp(seeds, id.value);
      assert LooksUp(single) && LookedUp([single], id.value);
    }
  }

  function Witness(id: string, rootId: Option<string>, topicKey: Option<string>): NoteRow {
    NoteRow(id, "", FACT_LAYER, None, None, None, None, false, true, true, None, topicKey, rootId, None, Missing,
            None, "")
  }

  lemma SingletonHead(row: NoteRow, field: Field, v: string)
    ensures NewestHead([row], field, v) == if HeadOf(row, field, v) then Some(row) else None
  {
    assert [row][1..] == [];
  }

  lemma NotSelfContainedDisagrees(seed: Seed)
    requires !SelfContained(seed)
    ensures !BatchAgrees(seed)
  {
    var single := SingleSeed(seed);
    var id := Normalized(seed.noteId).value;
    var byRoot := Normalized(seed.rootId).None?;
    var row := if byRoot then Witness(id, Some("r"), None) else Witness(id, None, Some("t"));
    var t := [row];
    assert !LookedUp([seed], id);
    assert single in [single] && LookedUp([single], id);
    var stored := Lineage(row.rootId, row.topicKey);
    assert LineageOfId(t, id) == Some(stored);
    var own, completed := Complete(seed, None), Complete(single, Some(stored));
    forall field, v ensures NewestHead(t, field, v) == if HeadOf(row, field, v) then Some(row) else None {
      SingletonHead(row, field, v);
    }
    assert BatchRead(t, [seed], seed) == ReadLineage(t, own) && ReadLineage(t, own).note == None;
    assert SingleRead(t, seed) == ReadLineage(t, completed) && ReadLineage(t, completed).note == Some(row);
    assert seed in [seed] && DistinctIds(t);
  }

  /**
   * A batch gives a seed its one-seed answer, in every table and beside every other seed, exactly when the
   * seed is self-contained. The seeds shut out carry a whitespace-only root or topic next to a present one.
   */
  lemma BatchAgreesExactly(seed: Seed)
    ensures BatchAgrees(seed) <==> SelfContained(seed)
  {
    if SelfContained(seed) {
      forall t: Table, seeds: seq<Seed> | DistinctIds(t) && seed in seeds
        ensures BatchRead(t, seeds, seed) == SingleRead(t, seed)
      {
        SelfContainedAgrees(t, seeds, seed);
      }
    } else {
      NotSelfContainedDisagrees(seed);
    }
  }

  /** The seed that carries a stored row's own fields. */
  function RowSeed(row: NoteRow): Seed {
    Seed(row.id, Some(row.id), row.rootId, row.topicKey)
  }

  /** For a stored row's own seed the company it keeps never matters, blank fields included. */
  lemma RowSeedRead(t: Table, seeds: seq<Seed>, row: NoteRow)
    requires ValidTable(t) && row in t
    ensures BatchRead(t, seeds, RowSeed(row)) == ReadLineage(t, LineageOfRow(row))
  {
    FindOwn(t, row);
    assert Normalized(Some(row.id)) == Some(row.id);
  }

  /** The note a reader works with: the live head of the row's lineage, or the row itself on a miss. */
  function Resolve(t: Table, row: NoteRow): NoteRow {
    ReadLineage(t, LineageOfRow(row)).note.GetOr(row)
  }

  predicate Idempotent(t: Table) {
    forall row <- t :: Resolve(t, Resolve(t, row)) == Resolve(t, row)
  }

  /** Every root id has at most one live head. */
  predicate UniqueRootHeads(t: Table) {
    forall a <- t, b <- t ::
      LiveHead(a) && LiveHead(b) && Normalized(a.rootId).Some? && Normalized(a.rootId) == Normalized(b.rootId) ==>
          a == b
  }

  /** A head found through its topic is not shadowed by a newer head of its own root. */
  predicate StableFallback(t: Table, row: NoteRow) {
    var read := ReadLineage(t, LineageOfRow(row));
    read.source == TopicKeyFallback ==>
      var root := Normalized(read.note.value.rootId);
      root.Some? ==> NewestHead(t, RootId, root.value) in {None, read.note}
  }

  lemma RootRouteIsStable(t: Table, row: NoteRow)
    requires DistinctIds(t) && ReadLineage(t, LineageOfRow(row)).source == Canonical
    ensures Resolve(t, Resolve(t, row)) == Resolve(t, row)
  {
    var root := Normalized(row.rootId).value;
    NewestHeadIsNewest(t, RootId, root);
    assert Normalized(Some(root)) == Some(root);
  }

  lemma TopicRouteIsStable(t: Table, row: NoteRow)
    requires DistinctIds(t) && ReadLineage(t, LineageOfRow(row)).source == TopicKeyFallback
    ensures Resolve(t, Resolve(t, row)) == Resolve(t, row) <==> StableFallback(t, row)
  {
    var topic := Normalized(row.topicKey).value;
    var h := Resolve(t, row);
    NewestHeadIsNewest(t, TopicKey, topic);
    assert h.topicKey == Some(topic) && Normalized(Some(topic)) == Some(topic);
    assert NewestHead(t, TopicKey, topic) == Some(h);
  }

  /** Resolution is idempotent exactly when no topic-route head is shadowed on its own root route. */
  lemma IdempotentExactly(t: Table)
    requires DistinctIds(t)
    ensures Idempotent(t) <==> forall row <- t :: StableFallback(t, row)
  {
    forall row <- t
      ensures Resolve(t, Resolve(t, row)) == Resolve(t, row) <==> StableFallback(t, row)
    {
      match ReadLineage(t, LineageOfRow(row)).source
      case Canonical => RootRouteIsStable(t, row);
      case TopicKeyFallback => TopicRouteIsStable(t, row);
      case Miss =>
    }
  }

  /** One live head per root id is enough, on the root route and on the topic route. */
  lemma UniqueHeadsAreIdempotent(t: Table)
    requires DistinctIds(t) && UniqueRootHeads(t)
    ensures Idempotent(t)
  {
    forall row <- t ensures StableFallback(t, row) {
      var read := ReadLineage(t, LineageOfRow(row));
      if read.source == TopicKeyFallback && Normalized(read.note.value.rootId).Some? {
        var h, root := read.note.value, Normalized(read.note.value.rootId).value;
        NewestHeadIsNewest(t, TopicKey, Normalized(row.topicKey).value);
        NewestHeadIsNewest(t, RootId, root);
        if NewestHead(t, RootId, root).Some? {
          assert Normalized(Some(root)) == Some(root);
          assert NewestHead(t, RootId, root).value == h;
        }
      }
    }
    IdempotentExactly(t);
  }

  lemma ResolveStaysInTable(t: Table, row: NoteRow)
    requires DistinctIds(t) && row in t
    ensures Resolve(t, row) in t
  {
    var l := LineageOfRow(row);
    if l.rootId.Some? { NewestHeadIsNewest(t, RootId, l.rootId.value); }
    if l.topicKey.Some? { NewestHeadIsNewest(t, TopicKey, l.topicKey.value); }
  }

  const STALE_NOTE := Witness("s", None, Some("t")).(isHead := false)
  const TOPIC_HEAD := Witness("h", Some("r"), Some("t"))
  const ROOT_HEAD := Witness("g", Some("r"), None).(createdAt := Some("2"))

  lemma ShadowedHeads()
    ensures NewestHead([STALE_NOTE, TOPIC_HEAD, ROOT_HEAD], TopicKey, "t") == Some(TOPIC_HEAD)
    ensures NewestHead([STALE_NOTE, TOPIC_HEAD, ROOT_HEAD], RootId, "r") == Some(ROOT_HEAD)
  {
    var t := [STALE_NOTE, TOPIC_HEAD, ROOT_HEAD];
    assert Newer(ROOT_HEAD, TOPIC_HEAD);
    NewestHeadUnique(t, TopicKey, "t", TOPIC_HEAD);
    NewestHeadUnique(t, RootId, "r", ROOT_HEAD);
  }

  /** A topic head shadowed by a newer head of its own root: resolving twice moves on to another note. */
  lemma SharedRootBreaksIdempotence()
    ensures exists t: Table :: ValidTable(t) && !Idempotent(t)
  {
    var t := [STALE_NOTE, TOPIC_HEAD, ROOT_HEAD];
    ShadowedHeads();
    hide NewestHead;
    assert ReadLineage(t, LineageOfRow(STALE_NOTE)).note == Some(TOPIC_HEAD);
    assert ReadLineage(t, LineageOfRow(TOPIC_HEAD)).note == Some(ROOT_HEAD);
    assert STALE_NOTE in t && ValidTable(t);
  }
}
