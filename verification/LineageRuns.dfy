/** The write path and the canonical reader together: superseding a note must not orphan it. */
module LineageRuns {
  import opened Common
  import opened Text
  import opened Notes
  import opened HotStore
  import opened CanonicalReader
  import opened ReaderLaws
  import opened WriteOrchestrator
  import opened HotRuns
  import Governance

  /** A generated id is new and a clean string. */
  predicate CleanId(s: HotState, id: string) {
    !HasId(s.notes, id) && IsTrimmed(id) && id != ""
  }

  /** Generated ids are clean, and a contradiction scan leaves out the note it runs for. */
  predicate CleanOp(s: HotState, op: Op) {
    match op
    case Proposing(_) => true
    case Approving(a) => CleanId(s, a.newId)
    case Adding(_, e) => CleanId(s, e.newId) && e.newId !in e.crossLayerHits
    case Saving(_, e) => CleanId(s, e.newId)
  }

  predicate CleanRun(w: Setup, s: HotState, ops: seq<Op>) {
    ops == [] || (CleanRun(w, s, ops[..|ops| - 1]) && CleanOp(Run(w, s, ops[..|ops| - 1]), ops[|ops| - 1]))
  }

  /** No add names a lineage root of its own. */
  predicate WithoutRoots(ops: seq<Op>) {
    forall i | 0 <= i < |ops| :: ops[i].Adding? ==> ops[i].params.rootId.None?
  }

  predicate SupersededUnder(r: NoteRow, topic: string) {
    r.evolutionState == Some("superseded") && r.topicKey == Some(topic)
  }

  predicate HeadUnder(t: Table, topic: string) {
    exists h <- t :: LiveHead(h) && h.topicKey == Some(topic)
  }

  /** Every superseded note with a topic key shares it with a live head. */
  ghost predicate NoOrphans(t: Table) {
    forall r <- t, topic | SupersededUnder(r, topic) :: HeadUnder(t, topic)
  }

  /** Identity rows and checkpoints carry no topic key. */
  predicate KeylessLayers(t: Table) {
    forall r <- t :: Keyless(r) ==> r.topicKey.None?
  }

  predicate Keyless(r: NoteRow) {
    r.layer == IDENTITY_LAYER || (r.layer == EVENT_LAYER && r.checkpointTask.Some?)
  }

  ghost predicate Sane(t: Table) {
    ValidTable(t) && KeylessLayers(t)
  }

  // ---- what retiring rows leaves behind ----

  /** The row's key is taken over by the new row, or carried by a live head that stays. */
  predicate KeyStaysHeaded(t: Table, added: NoteRow, gone: set<string>, r: NoteRow) {
    added.topicKey == r.topicKey || exists h <- t :: LiveHead(h) && h.id !in gone && h.topicKey == r.topicKey
  }

  predicate KeysStayHeaded(t: Table, added: NoteRow, gone: set<string>) {
    forall r <- t | r.id in gone && r.topicKey.Some? :: KeyStaysHeaded(t, added, gone, r)
  }

  /**
   * Retiring rows beside a new live row orphans nobody exactly when the key of every retired row is taken over by the
   * new row or still carried by another live head.
   */
  lemma RetiringExactly(t: Table, added: NoteRow, gone: set<string>)
    requires NoOrphans(t) && added.id !in gone && LiveHead(added) && added.evolutionState == Some("active")
    ensures NoOrphans(CrossLayer(t + [added], gone)) <==> KeysStayHeaded(t, added, gone)
  {
    var u := CrossLayer(t + [added], gone);
    if NoOrphans(u) {
      forall r <- t | r.id in gone && r.topicKey.Some? ensures KeyStaysHeaded(t, added, gone, r) {
        RetiredNeedsHead(t, added, gone, r);
      }
    }
    hide LiveHead, NoOrphans, CrossLayer;
    if KeysStayHeaded(t, added, gone) {
      forall r <- u, topic | SupersededUnder(r, topic) ensures HeadUnder(u, topic) {
        RetiredKeepsHead(t, added, gone, r, topic);
      }
      assert NoOrphans(u) by { OrphanFree(u); }
    }
  }

  lemma OrphanFree(u: Table)
    requires forall r <- u, topic | SupersededUnder(r, topic) :: HeadUnder(u, topic)
    ensures NoOrphans(u)
  {
  }

  lemma RetiredNeedsHead(t: Table, added: NoteRow, gone: set<string>, r: NoteRow)
    requires NoOrphans(CrossLayer(t + [added], gone)) && added.id !in gone
    requires r in t && r.id in gone && r.topicKey.Some?
    ensures KeyStaysHeaded(t, added, gone, r)
  {
    var all, u := t + [added], CrossLayer(t + [added], gone);
    var i :| 0 <= i < |t| && t[i] == r;
    assert u[i] in u && SupersededUnder(u[i], r.topicKey.value);
    var h :| h in u && LiveHead(h) && h.topicKey == r.topicKey;
    var k :| 0 <= k < |u| && u[k] == h;
    assert all[k].id !in gone && all[k] == h;
    assert k < |t| ==> t[k] in t;
  }

  lemma RetiredKeepsHead(t: Table, added: NoteRow, gone: set<string>, r: NoteRow, topic: string)
    requires NoOrphans(t) && KeysStayHeaded(t, added, gone)
    requires added.id !in gone && LiveHead(added) && added.evolutionState == Some("active")
    requires r in CrossLayer(t + [added], gone) && SupersededUnder(r, topic)
    ensures HeadUnder(CrossLayer(t + [added], gone), topic)
  {
    var all, u := t + [added], CrossLayer(t + [added], gone);
    var i :| 0 <= i < |u| && u[i] == r;
    assert i < |t| && t[i] in t && t[i].topicKey == Some(topic);
    hide LiveHead;
    if t[i].id in gone {
      assert KeyStaysHeaded(t, added, gone, t[i]);
    } else {
      var h :| h in t && LiveHead(h) && h.topicKey == Some(topic);
      assert h.id in gone ==> KeyStaysHeaded(t, added, gone, h);
    }
    assert u[|t|] == added && added in u;
    if added.topicKey != Some(topic) {
      var h :| h in t && LiveHead(h) && h.id !in gone && h.topicKey == Some(topic);
      var k :| 0 <= k < |t| && t[k] == h;
      assert u[k] == h;
    }
  }

  lemma InsertRow(t: Table, row: NoteRow)
    requires ValidTable(t) && !HasId(t, row.id) && IsTrimmed(row.id) && row.id != ""
    requires row.isHead && row.isActive && row.evolutionState == Some("active")
    ensures ValidTable(Upsert(t, row)) && |Upsert(t, row)| == |t| + 1
    ensures var added := Upsert(t, row)[|t|];
            && Upsert(t, row) == t + [added] && LiveHead(added) && added.evolutionState == Some("active")
            && added.topicKey == row.topicKey && added.id == row.id && added.layer == row.layer
            && added.checkpointTask == row.checkpointTask && added.rootId == row.rootId.Or(Some(row.id))
  {
  }

  /** Retiring touches neither ids nor keys nor roots. */
  lemma RetiringKeepsSane(t: Table, gone: set<string>)
    requires Sane(t)
    ensures Sane(CrossLayer(t, gone))
    ensures OwnRoots(t) ==> OwnRoots(CrossLayer(t, gone))
  {
    var u := CrossLayer(t, gone);
    forall r <- u
      ensures IsTrimmed(r.id) && r.id != "" && (Keyless(r) ==> r.topicKey.None?)
              && (OwnRoots(t) ==> r.rootId == Some(r.id))
    {
      var i :| 0 <= i < |u| && u[i] == r;
      assert t[i] in t;
    }
  }

  lemma InsertKeepsSane(t: Table, row: NoteRow)
    requires Sane(t) && !HasId(t, row.id) && IsTrimmed(row.id) && row.id != ""
    requires row.isHead && row.isActive && row.evolutionState == Some("active")
    requires Keyless(row) ==> row.topicKey.None?
    ensures Sane(Upsert(t, row))
    ensures OwnRoots(t) && row.rootId.None? ==> OwnRoots(Upsert(t, row))
  {
    InsertRow(t, row);
    var u := Upsert(t, row);
    hide Upsert, ValidTable;
    assert forall r <- u :: r in t || r == u[|t|];
  }

  // ---- adding ----

  /** The rows a saved add retires: the one it supersedes and those its contradiction scan hits. */
  function RetiredBy(t: Table, p: Params, e: Env): set<string> {
    (if SupersededBy(Nearest(t, p, e)) == [] then {} else {SupersededBy(Nearest(t, p, e))[0]})
    + (if LayerOf(p, e) != EVENT_LAYER && e.embedding.Some? then e.crossLayerHits else {})
  }

  /** The key of every retired row is taken over or still headed. */
  predicate Covered(t: Table, project: string, p: Params, e: Env) {
    KeysStayHeaded(t, RowToWrite(t, project, p, e), RetiredBy(t, p, e))
  }

  lemma SavedIsRetired(s: HotState, project: string, p: Params, e: Env)
    ensures var (s', r) := Add(s, project, p, e);
            && (!r.Saved? ==> s' == s)
            && (r.Saved? ==>
                  && Rejects(s.notes, project, p, e).None?
                  && var inserted := Upsert(s.notes, RowToWrite(s.notes, project, p, e));
                     s'.notes == CrossLayer(inserted, RetiredBy(s.notes, p, e)))
  {
    hide Upsert, RowToWrite, Nearest, LayerOf, SupersededBy;
    RejectionIsNotSaved(s.notes, project, p, e);
    hide Rejects;
    var u := Upsert(s.notes, RowToWrite(s.notes, project, p, e));
    ScanningNothing(u);
  }

  lemma RetiredIsStored(t: Table, p: Params, e: Env)
    requires !HasId(t, e.newId) && e.newId !in e.crossLayerHits
    ensures e.newId !in RetiredBy(t, p, e)
  {
    SupersededIsStored(t, p, e);
    hide Nearest, LayerOf, HasId;
    assert SupersededBy(Nearest(t, p, e)) != [] ==> SupersededBy(Nearest(t, p, e))[0] in SupersededBy(Nearest(t, p, e));
  }

  /** The new note takes over the key of the note it supersedes. */
  lemma TopicIsInherited(t: Table, project: string, p: Params, e: Env)
    requires DistinctIds(t) && p.topicKey.None?
    ensures var m := Nearest(t, p, e);
            SupersededBy(m) != [] ==>
              && m.best.Some? && m.best.value in t && SupersededBy(m) == [m.best.value.id]
              && (m.best.value.topicKey.Some? ==> RowToWrite(t, project, p, e).topicKey == m.best.value.topicKey)
  {
    hide BestMatch, DedupCandidates, BuildTopicKey, Trim, CategoryOf;
    NearestIsStored(t, p, e);
    var m := Nearest(t, p, e);
    if SupersededBy(m) != [] {
      FindOwn(t, m.best.value);
    }
  }

  lemma RowIsLive(t: Table, project: string, p: Params, e: Env)
    ensures var row := RowToWrite(t, project, p, e);
            && row.id == e.newId && row.isHead && row.isActive && row.evolutionState == Some("active")
            && row.rootId == p.rootId
  {
    hide DecideTopicKey, LayerOf, CategoryOf, Trim, Nearest;
  }

  lemma ScanningNothing(t: Table)
    ensures CrossLayer(t, {}) == t
  {
  }

  lemma RowIsKeyed(t: Table, project: string, p: Params, e: Env)
    requires Rejects(t, project, p, e).None?
    ensures var row := RowToWrite(t, project, p, e); !Keyless(row) && row.id == e.newId
  {
    WrittenRowIsNotIdentity(t, project, p, e);
    hide DecideTopicKey, LayerOf, CategoryOf, Trim, Nearest, Rejects;
  }

  /**
   * An add, with whatever topic override and contradictions: it keeps every superseded note's key headed exactly when
   * it saves nothing or the keys of the rows it retires are covered.
   */
  lemma AddKeepsExactly(s: HotState, project: string, p: Params, e: Env)
    requires Sane(s.notes) && CleanId(s, e.newId) && e.newId !in e.crossLayerHits
    ensures var (s', r) := Add(s, project, p, e);
            && Sane(s'.notes)
            && (NoOrphans(s.notes) ==> (NoOrphans(s'.notes) <==> (r.Saved? ==> Covered(s.notes, project, p, e))))
            && (OwnRoots(s.notes) && p.rootId.None? ==> OwnRoots(s'.notes))
  {
    hide Add, Trim, LayerOf, Nearest, NoOrphans, Rejects, RowToWrite, ValidTable, KeylessLayers, CrossLayer, Upsert,
         OwnRoots, RetiredBy, HasId, Keyless, KeysStayHeaded;
    var t := s.notes;
    SavedIsRetired(s, project, p, e);
    if Add(s, project, p, e).1.Saved? {
      var row, gone := RowToWrite(t, project, p, e), RetiredBy(t, p, e);
      RowIsLive(t, project, p, e);
      RowIsKeyed(t, project, p, e);
      InsertRow(t, row);
      InsertKeepsSane(t, row);
      RetiredIsStored(t, p, e);
      RetiringKeepsSane(Upsert(t, row), gone);
      var added := Upsert(t, row)[|t|];
      if NoOrphans(t) {
        RetiringExactly(t, added, gone);
        SameKeyCovers(t, row, added, gone);
      }
    }
  }

  lemma SameKeyCovers(t: Table, row: NoteRow, added: NoteRow, gone: set<string>)
    requires row.topicKey == added.topicKey
    ensures KeysStayHeaded(t, row, gone) <==> KeysStayHeaded(t, added, gone)
  {
    hide LiveHead;
    assert forall r :: KeyStaysHeaded(t, row, gone, r) <==> KeyStaysHeaded(t, added, gone, r);
  }

  /** No topic override and no contradiction: the one retired row is covered by the inherited key. */
  lemma PlainIsCovered(t: Table, project: string, p: Params, e: Env)
    requires DistinctIds(t) && p.topicKey.None? && e.crossLayerHits == {}
    ensures Covered(t, project, p, e)
  {
    hide Nearest, LayerOf, RowToWrite, SupersededBy, LiveHead, DistinctIds;
    TopicIsInherited(t, project, p, e);
    var row, gone := RowToWrite(t, project, p, e), RetiredBy(t, p, e);
    forall r <- t | r.id in gone && r.topicKey.Some? ensures KeyStaysHeaded(t, row, gone, r) {
      SameIdSameRow(t, r, Nearest(t, p, e).best.value);
    }
  }

  lemma ValidIsDistinct(t: Table)
    requires ValidTable(t)
    ensures DistinctIds(t)
  {
  }

  // ---- the other operations touch only rows without a key ----

  /** A row-by-row rewrite of keyless rows. */
  ghost predicate KeylessRewrite(t: Table, u: Table) {
    && |u| == |t|
    && forall i | 0 <= i < |t| :: KeylessRewritten(t[i], u[i])
  }

  predicate KeylessRewritten(r: NoteRow, s: NoteRow) {
    s == r || (r.topicKey.None? && s.topicKey.None? && s.id == r.id && s.rootId == r.rootId)
  }

  lemma KeylessRewriteIsSane(t: Table, u: Table)
    requires Sane(t) && KeylessRewrite(t, u)
    ensures Sane(u)
    ensures NoOrphans(t) ==> NoOrphans(u)
    ensures OwnRoots(t) ==> OwnRoots(u)
  {
    forall r <- u
      ensures IsTrimmed(r.id) && r.id != "" && (Keyless(r) ==> r.topicKey.None?)
              && (OwnRoots(t) ==> r.rootId == Some(r.id))
    {
      var i :| 0 <= i < |u| && u[i] == r;
      assert t[i] in t && KeylessRewritten(t[i], u[i]);
    }
    forall i, j | 0 <= i < j < |u| ensures u[i].id != u[j].id {
      assert KeylessRewritten(t[i], u[i]) && KeylessRewritten(t[j], u[j]);
    }
    if NoOrphans(t) { KeylessRewriteOrphansNobody(t, u); }
  }

  lemma KeylessRewriteOrphansNobody(t: Table, u: Table)
    requires NoOrphans(t) && KeylessRewrite(t, u)
    ensures NoOrphans(u)
  {
    forall r <- u, topic | SupersededUnder(r, topic) ensures HeadUnder(u, topic) {
      var i :| 0 <= i < |u| && u[i] == r;
      assert t[i] in t && KeylessRewritten(t[i], u[i]) && SupersededUnder(t[i], topic);
      var h :| h in t && LiveHead(h) && h.topicKey == Some(topic);
      var k :| 0 <= k < |t| && t[k] == h;
      assert KeylessRewritten(t[k], u[k]) && u[k] in u;
    }
  }

  lemma InsertKeyless(t: Table, row: NoteRow)
    requires Sane(t) && !HasId(t, row.id) && IsTrimmed(row.id) && row.id != ""
    requires row.isHead && row.isActive && row.evolutionState == Some("active") && row.topicKey.None?
    ensures Sane(Upsert(t, row))
    ensures NoOrphans(t) ==> NoOrphans(Upsert(t, row))
    ensures OwnRoots(t) && row.rootId.None? ==> OwnRoots(Upsert(t, row))
  {
    InsertKeepsSane(t, row);
    InsertRow(t, row);
    hide Upsert, OwnRoots, ValidTable, KeylessLayers, LiveHead;
    if NoOrphans(t) {
      RetiringExactly(t, Upsert(t, row)[|t|], {});
      ScanningNothing(Upsert(t, row));
    }
  }

  /** Every identity row, and every checkpoint, is keyless and so may be rewritten. */
  lemma IdentityRewrite(t: Table, c: Change, project: Option<string>, a: Governance.Attempt)
    requires Sane(t) && c.changeType in {"update", "delete"} && Governance.AppliedNotes(t, c, project, a).Some?
    ensures KeylessRewrite(t, Governance.AppliedNotes(t, c, project, a).value)
  {
    var u := Governance.AppliedNotes(t, c, project, a).value;
    var target :| target in t && target.id == c.targetId.value && target.layer == IDENTITY_LAYER;
    assert HasId(t, target.id);
    assert |u| == |t|;
    forall i | 0 <= i < |t| ensures KeylessRewritten(t[i], u[i]) {
      assert t[i] in t;
      if t[i].id == target.id {
        SameIdSameRow(t, t[i], target);
        assert Keyless(t[i]);
      }
    }
  }

  lemma ApplyKeepsLineage(t: Table, c: Change, project: Option<string>, a: Governance.Attempt)
    requires Sane(t) && !HasId(t, a.newId) && IsTrimmed(a.newId) && a.newId != ""
    requires Governance.AppliedNotes(t, c, project, a).Some?
    ensures var u := Governance.AppliedNotes(t, c, project, a).value;
            Sane(u) && (NoOrphans(t) ==> NoOrphans(u)) && (OwnRoots(t) ==> OwnRoots(u))
  {
    hide Sane, NoOrphans, OwnRoots, Upsert, KeylessRewrite;
    if c.changeType == "create" {
      InsertKeyless(t, Governance.IdentityRow(a.newId, c, project, a));
    } else {
      IdentityRewrite(t, c, project, a);
      KeylessRewriteIsSane(t, Governance.AppliedNotes(t, c, project, a).value);
    }
  }

  lemma ApproveNotes(w: Setup, s: HotState, a: Governance.Attempt)
    ensures var notes := Governance.Approve(w.folding, s, w.governanceProject, a).0.notes;
            notes == s.notes
            || (a.changeId in s.changes
                && Governance.AppliedNotes(s.notes, s.changes[a.changeId], w.governanceProject, a) == Some(notes))
  {
    hide Governance.Canonical, Governance.Greedy, Governance.AppliedNotes, Trim;
  }

  lemma DeactivateIsKeyless(t: Table, taskId: string, keep: Option<string>)
    requires Sane(t)
    ensures KeylessRewrite(t, Deactivate(t, taskId, keep))
    ensures forall id :: HasId(Deactivate(t, taskId, keep), id) ==> HasId(t, id)
  {
    var u := Deactivate(t, taskId, keep);
    forall i | 0 <= i < |t| ensures KeylessRewritten(t[i], u[i]) { assert t[i] in t; }
    forall id | HasId(u, id) ensures HasId(t, id) {
      var i :| 0 <= i < |u| && u[i].id == id;
      assert t[i] in t;
    }
  }

  lemma SaveKeepsLineage(s: HotState, project: string, c: Checkpoint, e: Env)
    requires Sane(s.notes) && CleanId(s, e.newId)
    ensures var u := Save(s, project, c, e).0.notes;
            Sane(u) && (NoOrphans(s.notes) ==> NoOrphans(u)) && (OwnRoots(s.notes) ==> OwnRoots(u))
  {
    hide Probe, FirstWithMetadata, Sane, NoOrphans, OwnRoots, Upsert, Deactivate, KeylessRewrite, HasId;
    var same := FirstWithMetadata(Probe(s.notes, c, project, e.touched), c.metadata);
    var keep := if same.Some? then Some(same.value.id) else None;
    DeactivateIsKeyless(s.notes, c.taskId, keep);
    KeylessRewriteIsSane(s.notes, Deactivate(s.notes, c.taskId, keep));
    if same.None? {
      InsertKeyless(Deactivate(s.notes, c.taskId, None), CheckpointRow(project, c, e));
    }
  }

  /** The operation keeps every superseded note's key headed: only a saved add can fail to. */
  predicate Keeps(w: Setup, s: HotState, op: Op) {
    op.Adding? && Add(s, w.project, op.params, op.env).1.Saved? ==> Covered(s.notes, w.project, op.params, op.env)
  }

  /** One operation of any kind. */
  lemma OpKeepsExactly(w: Setup, s: HotState, op: Op)
    requires Sane(s.notes) && CleanOp(s, op)
    ensures Sane(Step(w, s, op).notes)
    ensures NoOrphans(s.notes) ==> (NoOrphans(Step(w, s, op).notes) <==> Keeps(w, s, op))
    ensures OwnRoots(s.notes) && WithoutRoots([op]) ==> OwnRoots(Step(w, s, op).notes)
  {
    hide OwnRoots, Sane, NoOrphans, Governance.AppliedNotes, Add, Save, Covered;
    match op
    case Proposing(_) =>
    case Approving(a) =>
      ApproveNotes(w, s, a);
      if Governance.Approve(w.folding, s, w.governanceProject, a).0.notes != s.notes {
        ApplyKeepsLineage(s.notes, s.changes[a.changeId], w.governanceProject, a);
      }
      hide Governance.Approve;
    case Adding(p, e) =>
      AddKeepsExactly(s, w.project, p, e);
      assert [op][0].params == p;
    case Saving(c, e) =>
      SaveKeepsLineage(s, w.project, c, e);
  }

  /** Every operation of the run keeps the keys headed, in the state it meets. */
  predicate KeepingRun(w: Setup, s: HotState, ops: seq<Op>) {
    forall j | 0 <= j < |ops| :: Keeps(w, Run(w, s, ops[..j]), ops[j])
  }

  ghost predicate NeverOrphans(w: Setup, s: HotState, ops: seq<Op>) {
    forall j | 0 <= j <= |ops| :: NoOrphans(Run(w, s, ops[..j]).notes)
  }

  lemma {:induction false} RunsStaySane(w: Setup, s: HotState, ops: seq<Op>)
    requires Sane(s.notes) && CleanRun(w, s, ops)
    ensures Sane(Run(w, s, ops).notes)
    ensures OwnRoots(s.notes) && WithoutRoots(ops) ==> OwnRoots(Run(w, s, ops).notes)
  {
    hide Sane, Step, CleanOp, OwnRoots, NoOrphans, Keeps;
    if ops != [] {
      var front, op := ops[..|ops| - 1], ops[|ops| - 1];
      assert ops == front + [op] && op == ops[|front|];
      RunsStaySane(w, s, front);
      OpKeepsExactly(w, Run(w, s, front), op);
    }
  }

  lemma FrontKeeps(w: Setup, s: HotState, ops: seq<Op>)
    requires ops != []
    ensures var front := ops[..|ops| - 1];
            && (KeepingRun(w, s, ops) <==> KeepingRun(w, s, front) && Keeps(w, Run(w, s, front), ops[|front|]))
            && (NeverOrphans(w, s, ops) <==> NeverOrphans(w, s, front) && NoOrphans(Run(w, s, ops).notes))
  {
    hide Run, Keeps, NoOrphans;
    var front := ops[..|ops| - 1];
    assert ops[..|ops|] == ops;
    assert forall j | 0 <= j <= |front| :: front[..j] == ops[..j];
  }

  /**
   * Over any interleaving, with any overrides and contradictions: no state along the run orphans a note exactly when
   * every saved add covers the keys of the rows it retires.
   */
  lemma {:induction false} NeverOrphansExactly(w: Setup, s: HotState, ops: seq<Op>)
    requires Sane(s.notes) && NoOrphans(s.notes) && CleanRun(w, s, ops)
    ensures NeverOrphans(w, s, ops) <==> KeepingRun(w, s, ops)
    ensures KeepingRun(w, s, ops) ==> NoOrphans(Run(w, s, ops).notes)
  {
    hide Sane, Step, CleanOp, OwnRoots, NoOrphans, Keeps, KeepingRun, NeverOrphans;
    if ops == [] {
      EmptyRunKeeps(w, s);
    } else {
      var front, op := ops[..|ops| - 1], ops[|ops| - 1];
      NeverOrphansExactly(w, s, front);
      RunsStaySane(w, s, front);
      FrontKeeps(w, s, ops);
      OpKeepsExactly(w, Run(w, s, front), op);
    }
  }

  lemma EmptyRunKeeps(w: Setup, s: HotState)
    requires NoOrphans(s.notes)
    ensures NeverOrphans(w, s, []) && KeepingRun(w, s, [])
  {
    var ops: seq<Op> := [];
    assert ops[..0] == ops;
  }

  /** Adds carry no topic override and meet no contradiction. */
  predicate PlainOps(ops: seq<Op>) {
    forall i | 0 <= i < |ops| :: ops[i].Adding? ==> ops[i].params.topicKey.None? && ops[i].env.crossLayerHits == {}
  }

  lemma PlainOpKeeps(w: Setup, s: HotState, op: Op)
    requires ValidTable(s.notes) && PlainOps([op])
    ensures Keeps(w, s, op)
  {
    hide Add, Covered;
    assert [op][0] == op;
    if op.Adding? {
      ValidIsDistinct(s.notes);
      PlainIsCovered(s.notes, w.project, op.params, op.env);
    }
    hide ValidTable;
  }

  lemma {:induction false} PlainRunKeeps(w: Setup, s: HotState, ops: seq<Op>)
    requires Sane(s.notes) && CleanRun(w, s, ops) && PlainOps(ops)
    ensures KeepingRun(w, s, ops)
  {
    hide ValidTable, KeylessLayers, Step, CleanOp, Keeps, KeepingRun, OwnRoots;
    if ops == [] {
      NothingToKeep(w, s);
    } else {
      var front, op := ops[..|ops| - 1], ops[|ops| - 1];
      assert ops == front + [op] && op == ops[|front|];
      assert PlainOps([op]) && PlainOps(front);
      PlainRunKeeps(w, s, front);
      RunsStaySane(w, s, front);
      PlainOpKeeps(w, Run(w, s, front), op);
      FrontKeeps(w, s, ops);
    }
  }

  lemma NothingToKeep(w: Setup, s: HotState)
    ensures KeepingRun(w, s, [])
  {
  }

  /** Without overrides and contradictions, a superseded note with a topic key always has a live head of that key. */
  lemma NobodyIsOrphaned(w: Setup, s: HotState, ops: seq<Op>)
    requires Sane(s.notes) && NoOrphans(s.notes) && CleanRun(w, s, ops) && PlainOps(ops)
    ensures NoOrphans(Run(w, s, ops).notes)
  {
    PlainRunKeeps(w, s, ops);
    NeverOrphansExactly(w, s, ops);
  }

  // ---- reading superseded notes ----

  /** A reader that asks for a superseded note finds a live head, provided the key is what the reader trims it to. */
  lemma SupersededNotesAreReadable(w: Setup, s: HotState, ops: seq<Op>, r: NoteRow, topic: string)
    requires Sane(s.notes) && NoOrphans(s.notes) && CleanRun(w, s, ops) && KeepingRun(w, s, ops)
    requires r in Run(w, s, ops).notes && SupersededUnder(r, topic)
    requires IsTrimmed(topic) && topic != ""
    ensures var read := ReadLineage(Run(w, s, ops).notes, LineageOfRow(r));
            read.source != Miss && read.note.Some? && LiveHead(read.note.value)
  {
    var t := Run(w, s, ops).notes;
    NeverOrphansExactly(w, s, ops);
    RunsStaySane(w, s, ops);
    hide Run, KeepingRun, CleanRun;
    assert HeadUnder(t, topic);
    NewestHeadIsNewest(t, TopicKey, topic);
    var l := LineageOfRow(r);
    if l.rootId.Some? { NewestHeadIsNewest(t, RootId, l.rootId.value); }
    assert l.topicKey == Some(topic);
  }

  /** Some live head carries the row's root as the reader trims it. */
  predicate RootHeaded(t: Table, r: NoteRow) {
    Normalized(r.rootId).Some? && exists h <- t :: LiveHead(h) && h.rootId == Normalized(r.rootId)
  }

  /** In any table: the reader misses exactly when neither the root nor the key, as it trims them, has a live head. */
  lemma SupersededMissExactly(t: Table, r: NoteRow, key: string)
    requires DistinctIds(t) && SupersededUnder(r, key)
    ensures ReadLineage(t, LineageOfRow(r)).source == Miss <==>
            !RootHeaded(t, r) && (Trim(key) == "" || !HeadUnder(t, Trim(key)))
  {
    var l := LineageOfRow(r);
    if l.rootId.Some? { NewestHeadIsNewest(t, RootId, l.rootId.value); }
    NewestHeadIsNewest(t, TopicKey, Trim(key));
  }

  /** Among own roots a superseded note has only its key to go by. */
  lemma OwnRootsMissExactly(t: Table, r: NoteRow, key: string)
    requires ValidTable(t) && OwnRoots(t) && r in t && SupersededUnder(r, key)
    ensures ReadLineage(t, LineageOfRow(r)).source == Miss <==> Trim(key) == "" || !HeadUnder(t, Trim(key))
  {
    SupersededMissExactly(t, r, key);
    assert Normalized(r.rootId) == Some(r.id);
    if h :| h in t && LiveHead(h) && h.rootId == Some(r.id) {
      SameIdSameRow(t, h, r);
      assert false;
    }
  }

  /**
   * Over any run at all, a reader that asks for a superseded note under a key misses exactly when neither its root nor
   * its key has a live head as the reader trims them; where every add covers what it retires, that takes a key with
   * whitespace at an end.
   */
  lemma MissesExactly(w: Setup, s: HotState, ops: seq<Op>, r: NoteRow, key: string)
    requires Sane(s.notes) && CleanRun(w, s, ops)
    requires r in Run(w, s, ops).notes && SupersededUnder(r, key)
    ensures var t := Run(w, s, ops).notes;
            ReadLineage(t, LineageOfRow(r)).source == Miss <==>
            !RootHeaded(t, r) && (Trim(key) == "" || !HeadUnder(t, Trim(key)))
    ensures NoOrphans(s.notes) && KeepingRun(w, s, ops) && IsTrimmed(key) && key != "" ==>
            ReadLineage(Run(w, s, ops).notes, LineageOfRow(r)).source != Miss
  {
    RunsStaySane(w, s, ops);
    if NoOrphans(s.notes) { NeverOrphansExactly(w, s, ops); }
    hide Run, KeepingRun, CleanRun, LineageOfRow, ReadLineage, KeylessLayers, RootHeaded;
    var t := Run(w, s, ops).notes;
    SupersededMissExactly(t, r, key);
    assert NoOrphans(t) ==> HeadUnder(t, key);
  }

  // ---- stores that activation can trust ----

  /** Every row is the root of its own lineage. */
  predicate OwnRoots(t: Table) {
    forall r <- t :: r.rootId == Some(r.id)
  }

  lemma OwnRootsResolveIdempotently(t: Table)
    requires ValidTable(t) && OwnRoots(t)
    ensures UniqueRootHeads(t) && Idempotent(t)
  {
    forall a <- t, b <- t | Normalized(a.rootId).Some? && Normalized(a.rootId) == Normalized(b.rootId) ensures a == b {
      assert Normalized(Some(a.id)) == Some(a.id) && Normalized(Some(b.id)) == Some(b.id);
      SameIdSameRow(t, a, b);
    }
    UniqueHeadsAreIdempotent(t);
  }

  /** A store filled without root overrides meets the hypothesis under which activation is exact. */
  lemma RunResolvesIdempotently(w: Setup, s: HotState, ops: seq<Op>)
    requires Sane(s.notes) && OwnRoots(s.notes) && CleanRun(w, s, ops) && WithoutRoots(ops)
    ensures OwnRoots(Run(w, s, ops).notes) && Idempotent(Run(w, s, ops).notes)
  {
    RunsStaySane(w, s, ops);
    OwnRootsResolveIdempotently(Run(w, s, ops).notes);
    hide OwnRoots, Idempotent, Run;
  }
}
