/** Runs that interleave proposing, approving, adding and checkpointing on one hot store. */
module HotRuns {
  import opened Common
  import opened Text
  import opened Notes
  import opened HotStore
  import opened Governance
  import WriteOrchestrator

  /** One service call together with what its environment answers. */
  datatype Op =
    | Proposing(proposal: Proposal)
    | Approving(attempt: Attempt)
    | Adding(params: WriteOrchestrator.Params, env: WriteOrchestrator.Env)
    | Saving(checkpoint: WriteOrchestrator.Checkpoint, env: WriteOrchestrator.Env)

  /** The fixed configuration of the services. */
  datatype Setup = Setup(folding: Folding, governanceProject: Option<string>, project: string)

  function Step(w: Setup, s: HotState, op: Op): HotState {
    match op
    case Proposing(p) => Propose(s, p).0
    case Approving(a) => Approve(w.folding, s, w.governanceProject, a).0
    case Adding(p, e) => WriteOrchestrator.Add(s, w.project, p, e).0
    case Saving(c, e) => WriteOrchestrator.Save(s, w.project, c, e).0
  }

  predicate EndsInError(w: Setup, s: HotState, op: Op) {
    match op
    case Proposing(p) => Propose(s, p).1.Refused?
    case Approving(a) => Approve(w.folding, s, w.governanceProject, a).1.Refused?
    case Adding(p, e) => !WriteOrchestrator.Add(s, w.project, p, e).1.Saved?
    case Saving(c, e) => WriteOrchestrator.Save(s, w.project, c, e).1.CheckpointFailed?
  }

  /** Generated note ids are new. */
  predicate Fresh(s: HotState, op: Op) {
    match op
    case Proposing(_) => true
    case Approving(a) => !HasId(s.notes, a.newId)
    case Adding(_, e) => !HasId(s.notes, e.newId)
    case Saving(_, e) => !HasId(s.notes, e.newId)
  }

  function Run(w: Setup, s: HotState, ops: seq<Op>): HotState {
    if ops == [] then s else Step(w, Run(w, s, ops[..|ops| - 1]), ops[|ops| - 1])
  }

  predicate FreshRun(w: Setup, s: HotState, ops: seq<Op>) {
    ops == [] || (FreshRun(w, s, ops[..|ops| - 1]) && Fresh(Run(w, s, ops[..|ops| - 1]), ops[|ops| - 1]))
  }

  // ---- identity rows ----

  /** The identity layer, by id and content. */
  function Identity(t: Table): set<(string, string)> {
    set r <- t | r.layer == IDENTITY_LAYER :: (r.id, r.content)
  }

  /** A row-by-row rewrite that leaves ids, contents and layers alone. */
  ghost predicate FlagsOnly(t: Table, u: Table) {
    && |u| == |t|
    && forall i | 0 <= i < |t| :: u[i].id == t[i].id && u[i].content == t[i].content && u[i].layer == t[i].layer
  }

  lemma FlagsKeepIdentity(t: Table, u: Table)
    requires FlagsOnly(t, u)
    ensures Identity(u) == Identity(t)
    ensures DistinctIds(t) ==> DistinctIds(u)
    ensures forall id :: HasId(u, id) <==> HasId(t, id)
  {
    forall id, content ensures (id, content) in Identity(u) <==> (id, content) in Identity(t) {
      if (id, content) in Identity(u) {
        var i :| 0 <= i < |u| && u[i].layer == IDENTITY_LAYER && u[i].id == id && u[i].content == content;
        assert t[i] in t;
      }
      if (id, content) in Identity(t) {
        var i :| 0 <= i < |t| && t[i].layer == IDENTITY_LAYER && t[i].id == id && t[i].content == content;
        assert u[i] in u;
      }
    }
    forall id ensures HasId(u, id) <==> HasId(t, id) {
      if i :| 0 <= i < |u| && u[i].id == id { assert t[i] in t; }
      if i :| 0 <= i < |t| && t[i].id == id { assert u[i] in u; }
    }
  }

  lemma InsertIdentity(t: Table, row: NoteRow)
    requires DistinctIds(t) && !HasId(t, row.id)
    ensures DistinctIds(Upsert(t, row))
    ensures Identity(Upsert(t, row)) ==
            Identity(t) + if row.layer == IDENTITY_LAYER then {(row.id, row.content)} else {}
    ensures forall id :: HasId(Upsert(t, row), id) <==> HasId(t, id) || id == row.id
  {
    var u := Upsert(t, row);
    var added := u[|t|];
    assert u == t + [added];
    forall i | 0 <= i < |t| ensures t[i].id != row.id { assert t[i] in t; }
  }

  /** Rows with an identity pair, found by position. */
  lemma IdentityAt(t: Table, id: string, content: string) returns (at: int)
    ensures (id, content) in Identity(t) <==> 0 <= at
    ensures 0 <= at ==> at < |t| && t[at].layer == IDENTITY_LAYER && t[at].id == id && t[at].content == content
  {
    if i :| 0 <= i < |t| && t[i].layer == IDENTITY_LAYER && t[i].id == id && t[i].content == content {
      at := i;
      assert t[i] in t;
    } else {
      at := -1;
    }
  }

  lemma ReplaceIdentity(t: Table, row: NoteRow)
    requires DistinctIds(t) && HasIdentityRow(t, row.id) && row.layer == IDENTITY_LAYER
    ensures DistinctIds(Upsert(t, row))
    ensures Identity(Upsert(t, row)) == (set p <- Identity(t) | p.0 != row.id) + {(row.id, row.content)}
    ensures forall id :: HasId(Upsert(t, row), id) <==> HasId(t, id)
  {
    var u := Upsert(t, row);
    var at :| 0 <= at < |t| && t[at].id == row.id && t[at].layer == IDENTITY_LAYER;
    assert t[at] in t && HasId(t, row.id);
    assert |u| == |t| && forall i | 0 <= i < |t| :: u[i].id == t[i].id && (i != at ==> u[i] == t[i]);
    assert u[at].content == row.content && u[at].layer == IDENTITY_LAYER;
    hide Upsert;
    ReplacedIdentity(t, u, at, row);
    forall id ensures HasId(u, id) <==> HasId(t, id) {
      if i :| 0 <= i < |u| && u[i].id == id { assert t[i] in t; }
      if i :| 0 <= i < |t| && t[i].id == id { assert u[i] in u; }
    }
  }

  lemma ReplacedIdentity(t: Table, u: Table, at: nat, row: NoteRow)
    requires DistinctIds(t) && |u| == |t| && at < |t|
    requires forall i | 0 <= i < |t| :: u[i].id == t[i].id && (i != at ==> u[i] == t[i])
    requires t[at].id == row.id && u[at].content == row.content && u[at].layer == IDENTITY_LAYER
    ensures Identity(u) == (set p <- Identity(t) | p.0 != row.id) + {(row.id, row.content)}
  {
    var expected := (set p <- Identity(t) | p.0 != row.id) + {(row.id, row.content)};
    forall id, content ensures (id, content) in Identity(u) <==> (id, content) in expected {
      var i := IdentityAt(u, id, content);
      var j := IdentityAt(t, id, content);
      assert 0 <= i && i != at ==> t[i] in t;
      assert 0 <= j && j != at ==> u[j] in u;
    }
  }

  // ---- what each operation does to the identity layer ----

  /** The identity layer after the change is applied. */
  function IdentityAfter(before: set<(string, string)>, c: Change, newId: string): set<(string, string)> {
    if c.changeType == "create" then before + {(newId, c.content)}
    else if c.changeType == "update" && c.targetId.Some?
    then (set p <- before | p.0 != c.targetId.value) + {(c.targetId.value, c.content)}
    else before
  }

  lemma ApplyingChanges(t: Table, c: Change, project: Option<string>, a: Attempt)
    requires DistinctIds(t) && !HasId(t, a.newId) && AppliedNotes(t, c, project, a).Some?
    ensures var u := AppliedNotes(t, c, project, a).value;
            && DistinctIds(u)
            && Identity(u) == IdentityAfter(Identity(t), c, a.newId)
            && forall id | HasId(t, id) :: HasId(u, id)
  {
    var u := AppliedNotes(t, c, project, a).value;
    if c.changeType == "create" {
      InsertIdentity(t, IdentityRow(a.newId, c, project, a));
    } else if c.changeType == "update" {
      ReplaceIdentity(t, IdentityRow(c.targetId.value, c, project, a));
    } else {
      FlagsKeepIdentity(t, u);
    }
  }

  /** The single change a step applied, with the approvals that carried it. */
  ghost predicate Applies(w: Setup, s: HotState, s': HotState, a: Attempt) {
    && a.changeId in s.changes && a.changeId in s'.changes
    && s' == HotState(s'.notes, s.changes[a.changeId := s'.changes[a.changeId]])
    && var before, after := s.changes[a.changeId], s'.changes[a.changeId];
       && before.status == PENDING && after.status == APPLIED
       && before.approvals.Parsed?
       && after.approvals == Parsed(Greedy(w.folding, before.approvals.entries) + [EntryOf(a)])
       && Carried(w.folding, after)
       && after.content == before.content && after.changeType == before.changeType
       && Identity(s'.notes) == IdentityAfter(Identity(s.notes), before, a.newId)
  }

  /** Enough approvals, no two from one principal or under one label. */
  ghost predicate Carried(f: Folding, c: Change) {
    && c.status == APPLIED
    && c.approvals.Parsed?
    && PairwiseDistinct(f, c.approvals.entries)
    && |Principals(c.approvals.entries)| >= c.approvalsNeeded
  }

  function Principals(entries: seq<Approval>): set<string> {
    set e <- entries :: Principal(e)
  }

  lemma {:induction false} DistinctPrincipals(f: Folding, entries: seq<Approval>)
    requires PairwiseDistinct(f, entries)
    ensures |Principals(entries)| == |entries|
  {
    hide Canonical, Label, Principal;
    if entries != [] {
      var front, last := entries[..|entries| - 1], entries[|entries| - 1];
      DistinctPrincipals(f, front);
      assert entries == front + [last];
      assert Principals(entries) == Principals(front) + {Principal(last)};
      forall e <- front ensures Principal(e) != Principal(last) {
        var i :| 0 <= i < |front| && front[i] == e;
        assert !Clash(f, entries[i], last);
      }
    }
  }

  lemma AcceptedIsDistinct(f: Folding, s: HotState, a: Attempt)
    requires Refuses(f, s, a).None?
    ensures var entries := Greedy(f, s.changes[a.changeId].approvals.entries) + [EntryOf(a)];
            PairwiseDistinct(f, entries)
  {
    GreedyIsDistinct(f, s.changes[a.changeId].approvals.entries);
    hide Canonical, Trim, Greedy;
    var chosen := Greedy(f, s.changes[a.changeId].approvals.entries);
    forall e <- chosen ensures !Clash(f, e, EntryOf(a)) { }
  }

  lemma ApproveStep(w: Setup, s: HotState, a: Attempt)
    requires DistinctIds(s.notes) && !HasId(s.notes, a.newId)
    ensures var (s', r) := Approve(w.folding, s, w.governanceProject, a);
            && (r.Refused? ==> s' == s)
            && (Applies(w, s, s', a) || s'.notes == s.notes)
            && DistinctIds(s'.notes)
            && forall id | HasId(s.notes, id) :: HasId(s'.notes, id)
  {
    hide Canonical, Trim, Greedy, AppliedNotes, Identity, IdentityAfter, ClashesWith, PairwiseDistinct;
    var (s', r) := Approve(w.folding, s, w.governanceProject, a);
    if Refuses(w.folding, s, a).None? && r.Done? {
      var c := s.changes[a.changeId];
      var entries := Greedy(w.folding, c.approvals.entries) + [EntryOf(a)];
      AcceptedIsDistinct(w.folding, s, a);
      DistinctPrincipals(w.folding, entries);
      if |entries| >= c.approvalsNeeded {
        ApplyingChanges(s.notes, c, w.governanceProject, a);
      }
    }
  }

  lemma WrittenRowIsNotIdentity(t: Table, project: string, p: WriteOrchestrator.Params, e: WriteOrchestrator.Env)
    requires WriteOrchestrator.Rejects(t, project, p, e).None?
    ensures var row := WriteOrchestrator.RowToWrite(t, project, p, e); row.layer != IDENTITY_LAYER && row.id == e.newId
  {
    hide Trim, WriteOrchestrator.ExactCandidates, WriteOrchestrator.DedupCandidates, WriteOrchestrator.DecideTopicKey;
    hide WriteOrchestrator.LayerOf, WriteOrchestrator.CategoryOf, WriteOrchestrator.BestMatch;
  }

  lemma WritingKeepsIdentity(t: Table, project: string, p: WriteOrchestrator.Params, e: WriteOrchestrator.Env)
    requires DistinctIds(t) && !HasId(t, e.newId) && WriteOrchestrator.Rejects(t, project, p, e).None?
    ensures var u := WriteOrchestrator.Written(t, project, p, e);
            DistinctIds(u) && Identity(u) == Identity(t) && forall id | HasId(t, id) :: HasId(u, id)
  {
    WrittenRowIsNotIdentity(t, project, p, e);
    hide WriteOrchestrator.RowToWrite, WriteOrchestrator.Nearest, WriteOrchestrator.Rejects, Identity, Upsert, HasId,
        DistinctIds;
    var row := WriteOrchestrator.RowToWrite(t, project, p, e);
    InsertIdentity(t, row);
    var gone := WriteOrchestrator.SupersededBy(WriteOrchestrator.Nearest(t, p, e));
    if gone != [] {
      SupersedeKeepsIdentity(Upsert(t, row), gone[0]);
    }
  }

  lemma SupersedeKeepsIdentity(t: Table, id: string)
    ensures var u := WriteOrchestrator.Supersede(t, id);
            && Identity(u) == Identity(t) && (DistinctIds(t) ==> DistinctIds(u))
            && forall other :: HasId(u, other) <==> HasId(t, other)
  {
    hide Identity, DistinctIds, HasId;
    var u := WriteOrchestrator.Supersede(t, id);
    assert FlagsOnly(t, u);
    FlagsKeepIdentity(t, u);
  }

  lemma AddStep(w: Setup, s: HotState, p: WriteOrchestrator.Params, e: WriteOrchestrator.Env)
    requires DistinctIds(s.notes) && !HasId(s.notes, e.newId)
    ensures var (s', r) := WriteOrchestrator.Add(s, w.project, p, e);
            && (!r.Saved? ==> s' == s)
            && s'.changes == s.changes && DistinctIds(s'.notes)
            && Identity(s'.notes) == Identity(s.notes)
            && forall id | HasId(s.notes, id) :: HasId(s'.notes, id)
  {
    hide WriteOrchestrator.Written, WriteOrchestrator.LayerOf, WriteOrchestrator.Nearest, Identity, HasId,
        DistinctIds, FlagsOnly;
    var (s', r) := WriteOrchestrator.Add(s, w.project, p, e);
    RejectionIsNotSaved(s.notes, w.project, p, e);
    hide WriteOrchestrator.Rejects;
    if r.Saved? {
      WritingKeepsIdentity(s.notes, w.project, p, e);
      var written := WriteOrchestrator.Written(s.notes, w.project, p, e);
      ScanKeepsIdentity(written, e.crossLayerHits);
    }
  }

  lemma RejectionIsNotSaved(t: Table, project: string, p: WriteOrchestrator.Params, e: WriteOrchestrator.Env)
    ensures WriteOrchestrator.Rejects(t, project, p, e).Some? ==>
            !WriteOrchestrator.Rejects(t, project, p, e).value.Saved?
  {
  }

  lemma ScanKeepsIdentity(t: Table, hits: set<string>)
    ensures var u := WriteOrchestrator.CrossLayer(t, hits);
            && Identity(u) == Identity(t) && (DistinctIds(t) ==> DistinctIds(u))
            && forall id :: HasId(u, id) <==> HasId(t, id)
  {
    hide Identity, DistinctIds, HasId;
    var u := WriteOrchestrator.CrossLayer(t, hits);
    assert FlagsOnly(t, u);
    FlagsKeepIdentity(t, u);
  }

  lemma SaveStep(w: Setup, s: HotState, c: WriteOrchestrator.Checkpoint, e: WriteOrchestrator.Env)
    requires DistinctIds(s.notes) && !HasId(s.notes, e.newId)
    ensures var (s', r) := WriteOrchestrator.Save(s, w.project, c, e);
            && (r.CheckpointFailed? ==> s' == s)
            && s'.changes == s.changes && DistinctIds(s'.notes)
            && Identity(s'.notes) == Identity(s.notes)
            && forall id | HasId(s.notes, id) :: HasId(s'.notes, id)
  {
    hide Identity, WriteOrchestrator.Probe, WriteOrchestrator.FirstWithMetadata, Upsert;
    var same :=
        WriteOrchestrator.FirstWithMetadata(WriteOrchestrator.Probe(s.notes, c, w.project, e.touched), c.metadata);
    var keep := if same.Some? then Some(same.value.id) else None;
    var quiet := WriteOrchestrator.Deactivate(s.notes, c.taskId, keep);
    assert FlagsOnly(s.notes, quiet);
    FlagsKeepIdentity(s.notes, quiet);
    var row := WriteOrchestrator.CheckpointRow(w.project, c, e);
    InsertIdentity(quiet, row);
  }

  /**
   * One step of any kind: an error leaves the store as it was, and the identity layer changes only in a step
   * that flips exactly one pending change to applied under enough distinct principals.
   */
  lemma StepKeepsIdentity(w: Setup, s: HotState, op: Op)
    requires DistinctIds(s.notes) && Fresh(s, op)
    ensures var s' := Step(w, s, op);
            && (EndsInError(w, s, op) ==> s' == s)
            && (Identity(s'.notes) != Identity(s.notes) ==> op.Approving? && Applies(w, s, s', op.attempt))
            && DistinctIds(s'.notes)
            && forall id | HasId(s.notes, id) :: HasId(s'.notes, id)
  {
    hide Identity;
    match op
    case Proposing(_) =>
    case Approving(a) => ApproveStep(w, s, a);
    case Adding(p, e) => AddStep(w, s, p, e);
    case Saving(c, e) => SaveStep(w, s, c, e);
  }

  lemma {:induction false} RunKeepsIds(w: Setup, s: HotState, ops: seq<Op>)
    requires DistinctIds(s.notes) && FreshRun(w, s, ops)
    ensures DistinctIds(Run(w, s, ops).notes)
  {
    if ops != [] {
      RunKeepsIds(w, s, ops[..|ops| - 1]);
      StepKeepsIdentity(w, Run(w, s, ops[..|ops| - 1]), ops[|ops| - 1]);
    }
  }

  // ---- provenance of identity rows ----

  /** Applied is final: no step touches an applied change. */
  lemma AppliedIsAbsorbing(w: Setup, s: HotState, op: Op, id: string)
    requires id in s.changes && s.changes[id].status == APPLIED
    ensures id in Step(w, s, op).changes && Step(w, s, op).changes[id] == s.changes[id]
  {
    hide Canonical, Trim, Greedy, AppliedNotes, WriteOrchestrator.Rejects, WriteOrchestrator.Written;
  }

  /**
   * The operation at `k` put this id and content into the identity layer: it applied one change with that content,
   * creating the row under the id it generated or updating the row the change names.
   */
  ghost predicate PutAt(w: Setup, s: HotState, ops: seq<Op>, k: nat, p: (string, string)) {
    && k < |ops| && ops[k].Approving?
    && var a, before, after := ops[k].attempt, Run(w, s, ops[..k]), Run(w, s, ops[..k + 1]);
       && Applies(w, before, after, a)
       && PutsRow(before.changes[a.changeId], a, p)
  }

  predicate PutsRow(c: Change, a: Attempt, p: (string, string)) {
    && c.content == p.1
    && if c.changeType == "create" then a.newId == p.0 else c.changeType == "update" && c.targetId == Some(p.0)
  }

  /** The operation that put the row there is part of the run, and its change still stands as it was applied. */
  ghost predicate Backed(w: Setup, s: HotState, ops: seq<Op>, p: (string, string)) {
    exists k: nat :: PutAt(w, s, ops, k, p) && StandsSince(w, s, ops, k)
  }

  ghost predicate StandsSince(w: Setup, s: HotState, ops: seq<Op>, k: nat) {
    && k < |ops| && ops[k].Approving?
    && var id, since, end := ops[k].attempt.changeId, Run(w, s, ops[..k + 1]), Run(w, s, ops);
       && id in since.changes && id in end.changes && end.changes[id] == since.changes[id]
       && Carried(w.folding, end.changes[id])
  }

  lemma StaysBacked(w: Setup, s: HotState, ops: seq<Op>, p: (string, string))
    requires ops != [] && Backed(w, s, ops[..|ops| - 1], p)
    ensures Backed(w, s, ops, p)
  {
    hide Step, Applies, Carried;
    var front := ops[..|ops| - 1];
    var k: nat :| PutAt(w, s, front, k, p) && StandsSince(w, s, front, k);
    assert front[..k] == ops[..k] && front[..k + 1] == ops[..k + 1];
    var id := ops[k].attempt.changeId;
    CarriedIsApplied(w.folding, Run(w, s, front).changes[id]);
    AppliedIsAbsorbing(w, Run(w, s, front), ops[|ops| - 1], id);
    assert PutAt(w, s, ops, k, p) && StandsSince(w, s, ops, k);
  }

  lemma NewlyBacked(w: Setup, s: HotState, ops: seq<Op>, p: (string, string))
    requires ops != [] && ops[|ops| - 1].Approving?
    requires var mid := Run(w, s, ops[..|ops| - 1]);
             && Applies(w, mid, Run(w, s, ops), ops[|ops| - 1].attempt)
             && p !in Identity(mid.notes) && p in Identity(Run(w, s, ops).notes)
    ensures Backed(w, s, ops, p)
  {
    hide Step, Carried, Identity, Greedy;
    var k: nat := |ops| - 1;
    assert ops[..k + 1] == ops;
    assert PutAt(w, s, ops, k, p) && StandsSince(w, s, ops, k);
  }

  /** No identity row appears in any run but by a carried change with exactly that content, under that id. */
  lemma {:induction false} IdentityIsBacked(w: Setup, s: HotState, ops: seq<Op>)
    requires DistinctIds(s.notes) && FreshRun(w, s, ops)
    ensures forall p <- Identity(Run(w, s, ops).notes) :: p in Identity(s.notes) || Backed(w, s, ops, p)
  {
    hide Identity, Step, Applies, Backed;
    if ops != [] {
      var front, op := ops[..|ops| - 1], ops[|ops| - 1];
      var mid, end := Run(w, s, front), Run(w, s, ops);
      IdentityIsBacked(w, s, front);
      RunKeepsIds(w, s, front);
      StepKeepsIdentity(w, mid, op);
      forall p <- Identity(end.notes) ensures p in Identity(s.notes) || Backed(w, s, ops, p) {
        if p !in Identity(mid.notes) {
          NewlyBacked(w, s, ops, p);
        } else if p !in Identity(s.notes) {
          StaysBacked(w, s, ops, p);
        }
      }
    }
  }

  lemma CarriedIsApplied(f: Folding, c: Change)
    requires Carried(f, c)
    ensures c.status == APPLIED
  {
  }
}
