/** Resolving a note to the live head of its lineage: `canonical_reader.rs`. */
module CanonicalReader {
  import opened Common
  import opened Text
  import opened Sorting
  import opened Notes

  const SQLITE_CHUNK_SIZE := 900

  datatype ReadSource = Canonical | TopicKeyFallback | Miss

  datatype Seed = Seed(seedId: string, noteId: Option<string>, rootId: Option<string>, topicKey: Option<string>)

  datatype Read = Read(note: Option<NoteRow>, source: ReadSource)

  datatype Field = RootId | TopicKey

  datatype Lineage = Lineage(rootId: Option<string>, topicKey: Option<string>)

  function FieldOf(r: NoteRow, field: Field): Option<string> {
    if field.RootId? then r.rootId else r.topicKey
  }

  predicate LiveHead(r: NoteRow) {
    r.isHead && r.isActive && r.InActiveState()
  }

  predicate HeadOf(r: NoteRow, field: Field, v: string) {
    LiveHead(r) && FieldOf(r, field) == Some(v)
  }

  /** `COALESCE(created_at, '') DESC, id ASC`, strictly. */
  predicate Newer(a: NoteRow, b: NoteRow) {
    var ca, cb := a.createdAt.GetOr(""), b.createdAt.GetOr("");
    StrLt(cb, ca) || (ca == cb && StrLt(a.id, b.id))
  }

  lemma NewerIsStrict(a: NoteRow, b: NoteRow)
    ensures !(Newer(a, b) && Newer(b, a))
    ensures a.id != b.id ==> Newer(a, b) || Newer(b, a)
    ensures a == b ==> !Newer(a, b)
  {
    StrLtTotal(a.createdAt.GetOr(""), b.createdAt.GetOr(""));
    StrLtTotal(a.id, b.id);
  }

  lemma NewerTransitive(a: NoteRow, b: NoteRow, c: NoteRow)
    requires Newer(a, b) && Newer(b, c)
    ensures Newer(a, c)
  {
    var ca, cb, cc := a.createdAt.GetOr(""), b.createdAt.GetOr(""), c.createdAt.GetOr("");
    if StrLt(cb, ca) && StrLt(cc, cb) { StrLtTransitive(cc, cb, ca); }
    if StrLt(a.id, b.id) && StrLt(b.id, c.id) { StrLtTransitive(a.id, b.id, c.id); }
  }

  /** The live head a lineage value resolves to, found by one pass over the table. */
  function NewestHead(t: Table, field: Field, v: string): Option<NoteRow> {
    if t == [] then None
    else
      var rest := NewestHead(t[1..], field, v);
      if HeadOf(t[0], field, v) && (rest.None? || Newer(t[0], rest.value)) then Some(t[0]) else rest
  }

  /** What "the head" means: a live head of the lineage, newer than every other one. */
  predicate IsNewestHead(t: Table, field: Field, v: string, h: NoteRow) {
    && h in t
    && HeadOf(h, field, v)
    && forall r <- t :: HeadOf(r, field, v) ==> r == h || Newer(h, r)
  }

  /** The newest active head, ties broken by smallest id; none exactly when the lineage has no live head. */
  lemma {:induction false} NewestHeadIsNewest(t: Table, field: Field, v: string)
    requires DistinctIds(t)
    ensures NewestHead(t, field, v).Some? <==> exists r <- t :: HeadOf(r, field, v)
    ensures NewestHead(t, field, v).Some? ==> IsNewestHead(t, field, v, NewestHead(t, field, v).value)
  {
    if t != [] {
      NewestHeadIsNewest(t[1..], field, v);
      var rest := NewestHead(t[1..], field, v);
      assert forall r <- t :: r == t[0] || r in t[1..];
      if rest.Some? {
        var k :| 0 <= k < |t[1..]| && t[1..][k] == rest.value;
        assert t[k + 1].id != t[0].id;
        NewerIsStrict(t[0], rest.value);
        if HeadOf(t[0], field, v) && Newer(t[0], rest.value) {
          forall r <- t[1..] | HeadOf(r, field, v) ensures Newer(t[0], r) {
            if r != rest.value { NewerTransitive(t[0], rest.value, r); }
          }
        }
      }
    }
  }

  lemma NewestHeadUnique(t: Table, field: Field, v: string, h: NoteRow)
    requires DistinctIds(t) && IsNewestHead(t, field, v, h)
    ensures NewestHead(t, field, v) == Some(h)
  {
    NewestHeadIsNewest(t, field, v);
    NewerIsStrict(h, NewestHead(t, field, v).value);
  }

  /** Root route first, topic route second. */
  function ReadLineage(t: Table, l: Lineage): Read {
    var byRoot := if l.rootId.Some? then NewestHead(t, RootId, l.rootId.value) else None;
    var byTopic := if l.topicKey.Some? then NewestHead(t, TopicKey, l.topicKey.value) else None;
    if byRoot.Some? then Read(byRoot, Canonical)
    else if byTopic.Some? then Read(byTopic, TopicKeyFallback)
    else Read(None, Miss)
  }

  function LineageOfRow(r: NoteRow): Lineage {
    Lineage(Normalized(r.rootId), Normalized(r.topicKey))
  }

  function LineageOfId(t: Table, id: string): Option<Lineage> {
    var r := Find(t, id);
    if r.Some? then Some(LineageOfRow(r.value)) else None
  }

  /** A seed's own fields, completed from the stored row where they are missing. */
  function Complete(seed: Seed, stored: Option<Lineage>): Lineage {
    var own := Lineage(Normalized(seed.rootId), Normalized(seed.topicKey));
    if stored.None? then own
    else Lineage(own.rootId.Or(stored.value.rootId), own.topicKey.Or(stored.value.topicKey))
  }

  /** The seeds whose note row `hydrate_heads_by_canonical_or_topic` looks up. */
  predicate LooksUp(seed: Seed) {
    (seed.rootId.None? || seed.topicKey.None?) && Normalized(seed.noteId).Some?
  }

  predicate LookedUp(seeds: seq<Seed>, id: string) {
    exists s <- seeds :: LooksUp(s) && Normalized(s.noteId) == Some(id)
  }

  /** The answer for one seed inside a batch: the row is consulted if any seed asked for it. */
  function BatchRead(t: Table, seeds: seq<Seed>, seed: Seed): Read {
    var id := Normalized(seed.noteId);
    ReadLineage(t, Complete(seed, if id.Some? && LookedUp(seeds, id.value) then LineageOfId(t, id.value) else None))
  }

  /** The seed that `hydrate_head_by_canonical_or_topic` builds from its arguments. */
  function SingleSeed(seed: Seed): Seed {
    Seed("__single__", Normalized(seed.noteId), Normalized(seed.rootId), Normalized(seed.topicKey))
  }

  /** The simple lookup: one seed on its own. */
  function SingleRead(t: Table, seed: Seed): Read {
    BatchRead(t, [SingleSeed(seed)], SingleSeed(seed))
  }

  // ---- the imperative reader ----

  predicate RowBefore(field: Field, a: NoteRow, b: NoteRow) {
    var fa, fb := FieldOf(a, field).GetOr(""), FieldOf(b, field).GetOr("");
    StrLt(fa, fb) || (fa == fb && Newer(a, b))
  }

  function RowOrder(field: Field): (NoteRow, NoteRow) -> bool {
    (a: NoteRow, b: NoteRow) => RowBefore(field, a, b)
  }

  lemma RowBeforeAsymmetric(field: Field, a: NoteRow, b: NoteRow)
    ensures RowBefore(field, a, b) ==> !RowBefore(field, b, a)
  {
    StrLtTotal(FieldOf(a, field).GetOr(""), FieldOf(b, field).GetOr(""));
    NewerIsStrict(a, b);
  }

  lemma RowBeforeTransitive(field: Field, a: NoteRow, b: NoteRow, c: NoteRow)
    requires RowBefore(field, a, b) && RowBefore(field, b, c)
    ensures RowBefore(field, a, c)
  {
    var fa, fb, fc := FieldOf(a, field).GetOr(""), FieldOf(b, field).GetOr(""), FieldOf(c, field).GetOr("");
    if StrLt(fa, fb) && StrLt(fb, fc) { StrLtTransitive(fa, fb, fc); }
    if Newer(a, b) && Newer(b, c) { NewerTransitive(a, b, c); }
  }

  lemma RowBeforeNegTransitive(field: Field, a: NoteRow, b: NoteRow, c: NoteRow)
    requires !RowBefore(field, a, b) && !RowBefore(field, b, c)
    ensures !RowBefore(field, a, c)
  {
    var fa, fb, fc := FieldOf(a, field).GetOr(""), FieldOf(b, field).GetOr(""), FieldOf(c, field).GetOr("");
    StrLtTotal(fa, fb);
    StrLtTotal(fb, fc);
    StrLtTotal(fa, fc);
    if RowBefore(field, a, c) {
      if StrLt(fb, fa) && StrLt(fc, fb) { StrLtTransitive(fc, fb, fa); }
      StrLtTotal(a.createdAt.GetOr(""), b.createdAt.GetOr(""));
      StrLtTotal(b.createdAt.GetOr(""), c.createdAt.GetOr(""));
      StrLtTotal(a.createdAt.GetOr(""), c.createdAt.GetOr(""));
      StrLtTotal(a.id, b.id);
      StrLtTotal(b.id, c.id);
      StrLtTotal(a.id, c.id);
      NewerNegTransitive(a, b, c);
    }
  }

  lemma NewerNegTransitive(a: NoteRow, b: NoteRow, c: NoteRow)
    requires !Newer(a, b) && !Newer(b, c)
    ensures !Newer(a, c)
  {
    var ca, cb, cc := a.createdAt.GetOr(""), b.createdAt.GetOr(""), c.createdAt.GetOr("");
    StrLtTotal(ca, cb);
    StrLtTotal(cb, cc);
    StrLtTotal(ca, cc);
    StrLtTotal(a.id, b.id);
    StrLtTotal(b.id, c.id);
    StrLtTotal(a.id, c.id);
    if StrLt(ca, cb) && StrLt(cb, cc) { StrLtTransitive(ca, cb, cc); }
    if StrLt(b.id, a.id) && StrLt(c.id, b.id) { StrLtTransitive(c.id, b.id, a.id); }
  }

  lemma RowOrderIsStrict(field: Field)
    ensures StrictOrder(RowOrder(field))
  {
    var lt := RowOrder(field);
    forall a, b | lt(a, b) ensures !lt(b, a) { RowBeforeAsymmetric(field, a, b); }
    forall a, b, c | lt(a, b) && lt(b, c) ensures lt(a, c) { RowBeforeTransitive(field, a, b, c); }
    forall a, b, c | !lt(a, b) && !lt(b, c) ensures !lt(a, c) { RowBeforeNegTransitive(field, a, b, c); }
  }

  function SelectWhere(t: Table, hit: NoteRow -> bool): (r: seq<NoteRow>)
    ensures forall x :: x in r <==> x in t && hit(x)
  {
    if t == [] then []
    else
      assert forall x :: x in t <==> x == t[0] || x in t[1..];
      if hit(t[0]) then [t[0]] + SelectWhere(t[1..], hit) else SelectWhere(t[1..], hit)
  }

  /** The ordered head query for one chunk of values. */
  function HeadRows(t: Table, field: Field, chunk: seq<string>): (r: seq<NoteRow>)
    ensures Sorted(r, RowOrder(field))
    ensures forall x :: x in r <==> x in t && LiveHead(x) && FieldOf(x, field).Some? && FieldOf(x, field).value in chunk
  {
    var rows :=
        SelectWhere(t, (x: NoteRow) => LiveHead(x) && FieldOf(x, field).Some? && FieldOf(x, field).value in chunk);
    RowOrderIsStrict(field);
    SortSorts(rows, RowOrder(field));
    MembersOfSort(rows, RowOrder(field));
    Sort(rows, RowOrder(field))
  }

  lemma EarlierRowIsNewer(field: Field, v: string, a: NoteRow, b: NoteRow)
    requires !RowBefore(field, b, a) && a.id != b.id
    requires FieldOf(a, field) == Some(v) && FieldOf(b, field) == Some(v)
    ensures Newer(a, b)
  {
    NewerIsStrict(a, b);
  }

  lemma SameIdSameRow(t: Table, a: NoteRow, b: NoteRow)
    requires DistinctIds(t) && a in t && b in t && a.id == b.id
    ensures a == b
  {
    var i :| 0 <= i < |t| && t[i] == a;
    var j :| 0 <= j < |t| && t[j] == b;
  }

  /** The first row of a value in the ordered answer is that value's head. */
  lemma FirstRowIsHead(t: Table, field: Field, rows: seq<NoteRow>, i: nat, v: string)
    requires DistinctIds(t) && i < |rows|
    requires Sorted(rows, RowOrder(field))
    requires rows[i] in t && HeadOf(rows[i], field, v)
    requires forall r <- t | HeadOf(r, field, v) :: r in rows
    requires forall k | 0 <= k < i :: FieldOf(rows[k], field) != Some(v)
    ensures NewestHead(t, field, v) == Some(rows[i])
  {
    var h := rows[i];
    forall r <- t | HeadOf(r, field, v) ensures r == h || Newer(h, r) {
      if r != h {
        var k :| 0 <= k < |rows| && rows[k] == r;
        assert !RowOrder(field)(rows[k], rows[i]);
        if r.id == h.id { SameIdSameRow(t, r, h); }
        EarlierRowIsNewer(field, v, h, r);
      }
    }
    NewestHeadUnique(t, field, v, h);
  }

  /** `hydrate_heads_by_field`: chunked queries, first row per value wins. */
  method HydrateHeadsByField(t: Table, field: Field, values: seq<string>, chunkSize: nat)
    returns (output: map<string, NoteRow>)
    requires DistinctIds(t) && chunkSize > 0
    requires forall v <- values :: IsTrimmed(v) && v != ""
    ensures forall v :: v in output <==> v in values && NewestHead(t, field, v).Some?
    ensures forall v <- output :: NewestHead(t, field, v) == Some(output[v])
  {
    output := map[];
    var at := 0;
    while at < |values|
      invariant 0 <= at <= |values|
      invariant forall v :: v in output <==> v in values[..at] && NewestHead(t, field, v).Some?
      invariant forall v <- output :: NewestHead(t, field, v) == Some(output[v])
    {
      var end := if at + chunkSize < |values| then at + chunkSize else |values|;
      output := HydrateChunk(t, field, values[at..end], output);
      assert values[..end] == values[..at] + values[at..end];
      at := end;
    }
    assert values[..at] == values;
  }

  /** Some row among the first `n` carries the value `v`. */
  ghost predicate KeyedBefore(rows: seq<NoteRow>, n: nat, field: Field, v: string) {
    exists k | 0 <= k < n && k < |rows| :: FieldOf(rows[k], field) == Some(v)
  }

  lemma KeyedStep(rows: seq<NoteRow>, n: nat, field: Field)
    requires n < |rows|
    ensures forall v :: KeyedBefore(rows, n + 1, field, v) <==>
            KeyedBefore(rows, n, field, v) || FieldOf(rows[n], field) == Some(v)
    ensures forall v, k | 0 <= k < n && FieldOf(rows[k], field) == Some(v) :: KeyedBefore(rows, n, field, v)
  {
  }

  lemma KeyedNone(rows: seq<NoteRow>, field: Field)
    ensures forall v :: !KeyedBefore(rows, 0, field, v)
  {
  }

  lemma KeyedExactly(t: Table, field: Field, chunk: seq<string>, v: string)
    requires DistinctIds(t)
    ensures var rows := HeadRows(t, field, chunk);
            KeyedBefore(rows, |rows|, field, v) <==> v in chunk && NewestHead(t, field, v).Some?
  {
    var rows := HeadRows(t, field, chunk);
    NewestHeadIsNewest(t, field, v);
    if v in chunk && NewestHead(t, field, v).Some? {
      assert NewestHead(t, field, v).value in rows;
    }
    if KeyedBefore(rows, |rows|, field, v) {
      var k :| 0 <= k < |rows| && FieldOf(rows[k], field) == Some(v);
      assert rows[k] in rows;
    }
  }

  method HydrateChunk(t: Table, field: Field, chunk: seq<string>, before: map<string, NoteRow>)
    returns (output: map<string, NoteRow>)
    requires DistinctIds(t)
    requires forall v <- chunk :: IsTrimmed(v) && v != ""
    requires forall v <- before :: NewestHead(t, field, v) == Some(before[v])
    ensures forall v :: v in output <==> v in before || (v in chunk && NewestHead(t, field, v).Some?)
    ensures forall v <- output :: NewestHead(t, field, v) == Some(output[v])
  {
    hide NewestHead, KeyedBefore, HeadRows;
    output := before;
    var rows := HeadRows(t, field, chunk);
    KeyedNone(rows, field);
    for i := 0 to |rows|
      invariant forall v :: v in output <==> v in before || KeyedBefore(rows, i, field, v)
      invariant forall v <- output :: NewestHead(t, field, v) == Some(output[v])
    {
      assert rows[i] in rows;
      var key := Normalized(FieldOf(rows[i], field));
      assert key == FieldOf(rows[i], field);
      KeyedStep(rows, i, field);
      if key.value !in output {
        FirstRowIsHead(t, field, rows, i, key.value);
        output := output[key.value := rows[i]];
      }
    }
    forall v ensures KeyedBefore(rows, |rows|, field, v) <==> v in chunk && NewestHead(t, field, v).Some? {
      KeyedExactly(t, field, chunk, v);
    }
  }

  lemma LineageOfOwn(t: Table, row: NoteRow)
    requires DistinctIds(t) && row in t
    ensures LineageOfId(t, row.id) == Some(LineageOfRow(row))
  {
    FindOwn(t, row);
  }

  lemma LineageIsStored(t: Table, id: string, rows: seq<NoteRow>, chunk: seq<string>)
    requires forall x :: x in rows <==> x in t && x.id in chunk
    ensures (exists k | 0 <= k < |rows| :: rows[k].id == id) <==> id in chunk && LineageOfId(t, id).Some?
  {
    if k :| 0 <= k < |rows| && rows[k].id == id {
      assert rows[k] in rows;
      assert HasId(t, id);
    }
    if id in chunk && LineageOfId(t, id).Some? {
      assert Find(t, id).value in rows;
    }
  }

  /** `hydrate_seed_lineage`: chunked row lookups by id. */
  method HydrateSeedLineage(t: Table, ids: seq<string>, chunkSize: nat) returns (output: map<string, Lineage>)
    requires DistinctIds(t) && chunkSize > 0
    ensures forall id :: id in output <==> id in ids && LineageOfId(t, id).Some?
    ensures forall id <- output :: LineageOfId(t, id) == Some(output[id])
  {
    hide LineageOfId, LineageOfRow;
    output := map[];
    var at := 0;
    while at < |ids|
      invariant 0 <= at <= |ids|
      invariant forall id :: id in output <==> id in ids[..at] && LineageOfId(t, id).Some?
      invariant forall id <- output :: LineageOfId(t, id) == Some(output[id])
    {
      var end := if at + chunkSize < |ids| then at + chunkSize else |ids|;
      var chunk := ids[at..end];
      var rows := SelectWhere(t, (r: NoteRow) => r.id in chunk);
      ghost var before := output;
      for i := 0 to |rows|
        invariant forall id :: id in output <==> id in before || exists k | 0 <= k < i :: rows[k].id == id
        invariant forall id <- output :: LineageOfId(t, id) == Some(output[id])
      {
        assert rows[i] in rows;
        LineageOfOwn(t, rows[i]);
        output := output[rows[i].id := LineageOfRow(rows[i])];
      }
      forall id ensures (exists k | 0 <= k < |rows| :: rows[k].id == id) <==> id in chunk && LineageOfId(t, id).Some? {
        LineageIsStored(t, id, rows, chunk);
      }
      assert ids[..end] == ids[..at] + chunk;
      at := end;
    }
    assert ids[..at] == ids;
  }

  predicate LastWithId(seeds: seq<Seed>, i: nat) {
    LastBefore(seeds, i, |seeds|)
  }

  function CollectLookups(seeds: seq<Seed>): (r: seq<string>)
    ensures forall id :: id in r <==> LookedUp(seeds, id)
  {
    if seeds == [] then []
    else
      assert forall s :: s in seeds <==> s == seeds[0] || s in seeds[1..];
      (if LooksUp(seeds[0]) then [Normalized(seeds[0].noteId).value] else []) + CollectLookups(seeds[1..])
  }

  predicate NormalLineage(l: Lineage) {
    Normalized(l.rootId) == l.rootId && Normalized(l.topicKey) == l.topicKey
  }

  function Pick(l: Lineage, byRoot: map<string, NoteRow>, byTopic: map<string, NoteRow>): Read {
    if l.rootId.Some? && l.rootId.value in byRoot then Read(Some(byRoot[l.rootId.value]), Canonical)
    else if l.topicKey.Some? && l.topicKey.value in byTopic then Read(Some(byTopic[l.topicKey.value]), TopicKeyFallback)
    else Read(None, Miss)
  }

  function CollectPresent(lineages: seq<Lineage>, field: Field): (r: seq<string>)
    requires forall l <- lineages :: NormalLineage(l)
    ensures forall v <- r :: IsTrimmed(v) && v != ""
    ensures forall l <- lineages :: field.RootId? && l.rootId.Some? ==> l.rootId.value in r
    ensures forall l <- lineages :: field.TopicKey? && l.topicKey.Some? ==> l.topicKey.value in r
  {
    if lineages == [] then []
    else
      assert lineages[0] in lineages;
      assert NormalLineage(lineages[0]);
      var f := if field.RootId? then lineages[0].rootId else lineages[0].topicKey;
      assert Normalized(f) == f;
      (if f.Some? then [f.value] else []) + CollectPresent(lineages[1..], field)
  }

  function CompleteFrom(seed: Seed, stored: map<string, Lineage>): Lineage {
    var id := Normalized(seed.noteId);
    Complete(seed, if id.Some? && id.value in stored then Some(stored[id.value]) else None)
  }

  lemma CompleteFromAnswers(t: Table, seeds: seq<Seed>, seed: Seed, stored: map<string, Lineage>)
    requires forall id :: id in stored <==> LookedUp(seeds, id) && LineageOfId(t, id).Some?
    requires forall id <- stored :: LineageOfId(t, id) == Some(stored[id])
    ensures NormalLineage(CompleteFrom(seed, stored))
    ensures ReadLineage(t, CompleteFrom(seed, stored)) == BatchRead(t, seeds, seed)
  {
    var id := Normalized(seed.noteId);
    if id.Some? && id.value in stored {
      assert LineageOfId(t, id.value) == Some(stored[id.value]);
    }
  }

  lemma PickReads(t: Table, l: Lineage, byRoot: map<string, NoteRow>, byTopic: map<string, NoteRow>)
    requires l.rootId.Some? ==> (l.rootId.value in byRoot <==> NewestHead(t, RootId, l.rootId.value).Some?)
    requires l.topicKey.Some? ==> (l.topicKey.value in byTopic <==> NewestHead(t, TopicKey, l.topicKey.value).Some?)
    requires forall v <- byRoot :: NewestHead(t, RootId, v) == Some(byRoot[v])
    requires forall v <- byTopic :: NewestHead(t, TopicKey, v) == Some(byTopic[v])
    ensures Pick(l, byRoot, byTopic) == ReadLineage(t, l)
  {
  }

  /** `hydrate_heads_by_canonical_or_topic`: every seed gets its batch answer, whatever the chunk size. */
  method HydrateHeads(t: Table, seeds: seq<Seed>, chunkSize: nat) returns (resolved: map<string, Read>)
    requires DistinctIds(t) && chunkSize > 0
    ensures forall i | 0 <= i < |seeds| && LastWithId(seeds, i) ::
              seeds[i].seedId in resolved && resolved[seeds[i].seedId] == BatchRead(t, seeds, seeds[i])
    ensures forall id <- resolved :: exists s <- seeds :: s.seedId == id
  {
    var stored := HydrateSeedLineage(t, CollectLookups(seeds), chunkSize);
    var lineages := seq(|seeds|, k requires 0 <= k < |seeds| => CompleteFrom(seeds[k], stored));
    forall k | 0 <= k < |seeds|
      ensures NormalLineage(lineages[k]) && ReadLineage(t, lineages[k]) == BatchRead(t, seeds, seeds[k])
    {
      CompleteFromAnswers(t, seeds, seeds[k], stored);
    }
    var byRoot, byTopic := HydrateLineages(t, lineages, chunkSize);
    resolved := InsertReads(seeds, lineages, byRoot, byTopic);
    forall i | 0 <= i < |seeds| && LastWithId(seeds, i)
      ensures resolved[seeds[i].seedId] == BatchRead(t, seeds, seeds[i])
    {
      assert lineages[i] in lineages;
      PickReads(t, lineages[i], byRoot, byTopic);
    }
  }

  method HydrateLineages(t: Table, lineages: seq<Lineage>, chunkSize: nat)
    returns (byRoot: map<string, NoteRow>, byTopic: map<string, NoteRow>)
    requires DistinctIds(t) && chunkSize > 0
    requires forall l <- lineages :: NormalLineage(l)
    ensures forall v <- byRoot :: NewestHead(t, RootId, v) == Some(byRoot[v])
    ensures forall v <- byTopic :: NewestHead(t, TopicKey, v) == Some(byTopic[v])
    ensures forall l <- lineages | l.rootId.Some? ::
              l.rootId.value in byRoot <==> NewestHead(t, RootId, l.rootId.value).Some?
    ensures forall l <- lineages | l.topicKey.Some? ::
              l.topicKey.value in byTopic <==> NewestHead(t, TopicKey, l.topicKey.value).Some?
  {
    byRoot := HydrateHeadsByField(t, RootId, CollectPresent(lineages, RootId), chunkSize);
    byTopic := HydrateHeadsByField(t, TopicKey, CollectPresent(lineages, TopicKey), chunkSize);
  }

  /** The final loop: a later seed with the same id overwrites an earlier one. */
  method InsertReads(seeds: seq<Seed>, lineages: seq<Lineage>, byRoot: map<string, NoteRow>,
                     byTopic: map<string, NoteRow>)
    returns (resolved: map<string, Read>)
    requires |lineages| == |seeds|
    ensures forall i | 0 <= i < |seeds| && LastWithId(seeds, i) ::
              seeds[i].seedId in resolved && resolved[seeds[i].seedId] == Pick(lineages[i], byRoot, byTopic)
    ensures forall id <- resolved :: exists s <- seeds :: s.seedId == id
  {
    hide Pick, AnswersLast, KeysAreSeeds;
    resolved := map[];
    NothingAnswered(seeds, lineages, byRoot, byTopic);
    for i := 0 to |seeds|
      invariant KeysAreSeeds(resolved, seeds) && AnswersLast(resolved, seeds, lineages, byRoot, byTopic, i)
    {
      AnswerOneMore(resolved, seeds, lineages, byRoot, byTopic, i);
      KeysGrow(resolved, seeds, i, Pick(lineages[i], byRoot, byTopic));
      resolved := resolved[seeds[i].seedId := Pick(lineages[i], byRoot, byTopic)];
    }
    AllAnswered(resolved, seeds, lineages, byRoot, byTopic);
  }

  ghost predicate KeysAreSeeds(resolved: map<string, Read>, seeds: seq<Seed>) {
    forall id <- resolved :: exists s <- seeds :: s.seedId == id
  }

  /** Every seed that is the last of its id among the first `n` has its own answer. */
  ghost predicate AnswersLast(resolved: map<string, Read>, seeds: seq<Seed>, lineages: seq<Lineage>,
                              byRoot: map<string, NoteRow>, byTopic: map<string, NoteRow>, n: nat)
    requires n <= |seeds| == |lineages|
  {
    forall k | 0 <= k < n && LastBefore(seeds, k, n) ::
      seeds[k].seedId in resolved && resolved[seeds[k].seedId] == Pick(lineages[k], byRoot, byTopic)
  }

  lemma NothingAnswered(seeds: seq<Seed>, lineages: seq<Lineage>, byRoot: map<string, NoteRow>,
                        byTopic: map<string, NoteRow>)
    requires |lineages| == |seeds|
    ensures KeysAreSeeds(map[], seeds) && AnswersLast(map[], seeds, lineages, byRoot, byTopic, 0)
  {
  }

  lemma AnswerOneMore(resolved: map<string, Read>, seeds: seq<Seed>, lineages: seq<Lineage>,
                      byRoot: map<string, NoteRow>, byTopic: map<string, NoteRow>, i: nat)
    requires i < |seeds| == |lineages|
    requires AnswersLast(resolved, seeds, lineages, byRoot, byTopic, i)
    ensures var more := resolved[seeds[i].seedId := Pick(lineages[i], byRoot, byTopic)];
            AnswersLast(more, seeds, lineages, byRoot, byTopic, i + 1)
  {
    hide Pick;
    forall k | 0 <= k < i && LastBefore(seeds, k, i + 1)
      ensures LastBefore(seeds, k, i) && seeds[k].seedId != seeds[i].seedId
    {
      StillLast(seeds, k, i);
    }
    hide LastBefore;
  }

  lemma StillLast(seeds: seq<Seed>, k: nat, i: nat)
    requires k < i < |seeds| && LastBefore(seeds, k, i + 1)
    ensures LastBefore(seeds, k, i) && seeds[k].seedId != seeds[i].seedId
  {
  }

  lemma KeysGrow(resolved: map<string, Read>, seeds: seq<Seed>, i: nat, read: Read)
    requires i < |seeds| && KeysAreSeeds(resolved, seeds)
    ensures KeysAreSeeds(resolved[seeds[i].seedId := read], seeds)
  {
    assert seeds[i] in seeds;
  }

  lemma AllAnswered(resolved: map<string, Read>, seeds: seq<Seed>, lineages: seq<Lineage>,
                    byRoot: map<string, NoteRow>, byTopic: map<string, NoteRow>)
    requires |lineages| == |seeds|
    requires KeysAreSeeds(resolved, seeds) && AnswersLast(resolved, seeds, lineages, byRoot, byTopic, |seeds|)
    ensures forall i | 0 <= i < |seeds| && LastWithId(seeds, i) ::
              seeds[i].seedId in resolved && resolved[seeds[i].seedId] == Pick(lineages[i], byRoot, byTopic)
    ensures forall id <- resolved :: exists s <- seeds :: s.seedId == id
  {
    hide Pick, LastBefore;
  }

  /** No seed between `k` and `n` repeats the id of the one at `k`. */
  predicate LastBefore(seeds: seq<Seed>, k: nat, n: nat) {
    k < n <= |seeds| && forall j | k < j < n :: seeds[j].seedId != seeds[k].seedId
  }

  /** `hydrate_head_by_canonical_or_topic`. */
  method HydrateHead(t: Table, noteId: Option<string>, rootId: Option<string>, topicKey: Option<string>)
    returns (read: Read)
    requires DistinctIds(t)
    ensures read == SingleRead(t, Seed("__single__", noteId, rootId, topicKey))
  {
    var seed := SingleSeed(Seed("__single__", noteId, rootId, topicKey));
    var resolved := HydrateHeads(t, [seed], SQLITE_CHUNK_SIZE);
    assert LastWithId([seed], 0);
    read := resolved["__single__"];
  }
}
