/** What an approval does, column by column: the verdicts, the stored approvals, and the identity rows. */
module GovernanceEffects {
  import opened Common
  import opened Text
  import opened Notes
  import opened HotStore
  import opened Governance
  import opened HotRuns
  import opened GovernanceRuns

  // ---- proposing ----

  /** A proposal stores its own words as a pending change that needs three approvals and has none. */
  predicate IsProposed(p: Proposal, c: Change) {
    && c.content == p.content && c.reason == p.reason && c.targetId == p.targetId && c.category == p.category
    && c.changeType == (if p.changeType.Some? then p.changeType.value else "create")
    && c.proposer == (if p.proposer.Some? then p.proposer.value else "mcp")
    && c.status == "pending" && c.approvalsNeeded == 3 && c.approvalsCount == 0 && c.approvals == Parsed([])
    && c.createdAt == p.now && c.updatedAt == p.now && c.appliedAt.None?
  }

  lemma ProposeExactly(s: HotState, p: Proposal)
    ensures var (s', r) := Propose(s, p);
            if p.id in s.changes then s' == s && r == Refused(DuplicateChangeId)
            else
              && s'.notes == s.notes && s'.changes.Keys == s.changes.Keys + {p.id}
              && (forall id <- s.changes :: s'.changes[id] == s.changes[id])
              && r == Done(s'.changes[p.id]) && IsProposed(p, s'.changes[p.id])
  {
  }

  // ---- the verdict on an approval ----

  function Name(a: Attempt): string {
    if a.approver.Some? then a.approver.value else a.actorId
  }

  function Actor(e: Approval): string {
    if e.actorId.Some? then e.actorId.value else e.approver
  }

  /** What is left of a label: compatibility-normalised, trimmed and lower-cased, without invisible characters. */
  predicate SameLabel(f: Folding, a: string, b: string) {
    f.lower(Trim(f.nfkc(DropIgnorable(a)))) == f.lower(Trim(f.nfkc(DropIgnorable(b))))
  }

  /** Dropping works character by character, and drops only the invisible ones. */
  lemma DropIgnorableExactly(a: string, c: char, b: string)
    ensures DropIgnorable(a + [c] + b) == DropIgnorable(a) + (if IsDefaultIgnorable(c) then "" else [c])
            + DropIgnorable(b)
    ensures DropIgnorable("") == ""
  {
    DropAppend(a + [c], b);
    DropAppend(a, [c]);
    assert [c][1..] == "";
  }

  /** The approvals that count on a change: the selection of its stored ones. */
  function Counted(f: Folding, c: Change): seq<Approval>
    requires c.approvals.Parsed?
  {
    Greedy(f, c.approvals.entries)
  }

  predicate Apart(f: Folding, a: Approval, b: Approval) {
    Actor(a) != Actor(b) && !SameLabel(f, a.approver, b.approver)
  }

  /** Stored approvals count one after the other, each unless it shares its principal or label with a counted one. */
  lemma CountedExactly(f: Folding, entries: seq<Approval>, e: Approval)
    ensures Greedy(f, []) == []
    ensures Greedy(f, entries + [e]) ==
            Greedy(f, entries) + if forall c <- Greedy(f, entries) :: Apart(f, c, e) then [e] else []
  {
    GreedyStep(f, entries, e);
    assert forall c <- Greedy(f, entries) :: Clash(f, c, e) <==> !Apart(f, c, e);
    hide Greedy, Canonical, Trim, DropIgnorable, Clash, Apart;
  }

  /** Every refusal before anything is written, in the order the checks are made. */
  predicate RefusedAs(f: Folding, s: HotState, a: Attempt, why: Refusal) {
    if IsBlank(a.actorId) then why == EmptyPrincipal
    else if IsBlank(Name(a)) then why == EmptyApprover
    else if f.lower(Trim(f.nfkc(DropIgnorable(Name(a))))) == "" then why == EmptyCanonicalApprover
    else if a.changeId !in s.changes then why == ChangeNotFound
    else
      var c := s.changes[a.changeId];
      if c.status != "pending" then why == NotPending
      else if c.approvals.Corrupted? then why == ApprovalsCorrupted
      else if exists e <- Counted(f, c) :: SameLabel(f, e.approver, Name(a)) then why == ApproverSeen
      else (exists e <- Counted(f, c) :: Actor(e) == a.actorId) && why == PrincipalSeen
  }

  lemma RefusesExactly(f: Folding, s: HotState, a: Attempt, why: Refusal)
    ensures Refuses(f, s, a) == Some(why) <==> RefusedAs(f, s, a, why)
  {
    TrimOfBlank(a.actorId);
    TrimOfBlank(Name(a));
    hide Trim, Greedy, DropIgnorable, IsDefaultIgnorable, SameLabel, Label;
    if a.changeId in s.changes && s.changes[a.changeId].approvals.Parsed? {
      var chosen := Counted(f, s.changes[a.changeId]);
      SeenExactly(f, chosen, a);
    }
  }

  lemma SeenExactly(f: Folding, chosen: seq<Approval>, a: Attempt)
    ensures (exists e <- chosen :: Label(f, e) == Label(f, EntryOf(a))) <==>
            exists e <- chosen :: SameLabel(f, e.approver, Name(a))
    ensures (exists e <- chosen :: Principal(e) == a.actorId) <==> exists e <- chosen :: Actor(e) == a.actorId
  {
    hide Trim, DropIgnorable;
    assert forall e: Approval :: Label(f, e) == Label(f, EntryOf(a)) <==> SameLabel(f, e.approver, Name(a));
    assert forall e: Approval :: Principal(e) == Actor(e);
  }

  // ---- what is stored ----

  predicate IsEntry(a: Attempt, e: Approval) {
    e.approver == Name(a) && e.actorId == Some(a.actorId) && e.comment == a.comment && e.approvedAt == a.now
  }

  /** The change after an accepted approval: one more counted approval, and applied once it has as many as it needs. */
  predicate IsRecorded(f: Folding, before: Change, a: Attempt, after: Change) {
    && before.approvals.Parsed? && after.approvals.Parsed?
    && |after.approvals.entries| == |Counted(f, before)| + 1
    && after.approvals.entries[..|Counted(f, before)|] == Counted(f, before)
    && IsEntry(a, after.approvals.entries[|Counted(f, before)|])
    && after.approvalsCount == |after.approvals.entries| && after.updatedAt == a.now
    && (after.status == "applied" <==> after.approvalsCount >= after.approvalsNeeded)
    && (after.status != "applied" ==> after.status == "pending")
    && after.appliedAt == (if after.status == "applied" then Some(a.now) else before.appliedAt)
    && after ==
       before.(approvals := after.approvals, approvalsCount := after.approvalsCount, updatedAt := after.updatedAt,
                        status := after.status, appliedAt := after.appliedAt)
    && forall i, j | 0 <= i < j < |after.approvals.entries| ::
       Apart(f, after.approvals.entries[i], after.approvals.entries[j])
  }

  lemma RecordedExactly(f: Folding, s: HotState, project: Option<string>, a: Attempt)
    requires Approve(f, s, project, a).1.Done?
    ensures var (s', r) := Approve(f, s, project, a);
            && a.changeId in s.changes && s'.changes.Keys == s.changes.Keys && r == Done(s'.changes[a.changeId])
            && (forall id <- s.changes | id != a.changeId :: s'.changes[id] == s.changes[id])
            && IsRecorded(f, s.changes[a.changeId], a, s'.changes[a.changeId])
            && (s'.changes[a.changeId].status != "applied" ==> s'.notes == s.notes)
  {
    hide Trim, Greedy, AppliedNotes, PairwiseDistinct, DropIgnorable, Canonical, SameLabel;
    AcceptedIsDistinct(f, s, a);
    var c := s.changes[a.changeId];
    EntriesAreApart(f, Greedy(f, c.approvals.entries) + [EntryOf(a)]);
  }

  lemma EntriesAreApart(f: Folding, entries: seq<Approval>)
    requires PairwiseDistinct(f, entries)
    ensures forall i, j | 0 <= i < j < |entries| :: Apart(f, entries[i], entries[j])
  {
    hide Trim, DropIgnorable;
  }

  /**
   * An approval is refused, recorded, or turned down because the change cannot be applied; a refusal leaves the
   * store.
   */
  lemma VerdictExactly(f: Folding, s: HotState, project: Option<string>, a: Attempt)
    ensures var (s', r) := Approve(f, s, project, a);
            && (r.Refused? ==> s' == s && (r.why == ApplyFailed || RefusedAs(f, s, a, r.why)))
            && (r.Done? ==> forall why :: !RefusedAs(f, s, a, why))
  {
    forall why ensures Refuses(f, s, a) == Some(why) <==> RefusedAs(f, s, a, why) { RefusesExactly(f, s, a, why); }
    hide Refuses, RefusedAs, Greedy, AppliedNotes;
  }

  // ---- the rows of an applied change ----

  /** The row at `i` is the only one that changed. */
  predicate OnlyAt(t: Table, u: Table, i: nat) {
    i < |t| == |u| && forall k | 0 <= k < |t| && k != i :: u[k] == t[k]
  }

  /** Retired: inactive and deprecated, and otherwise as it was. */
  predicate IsRetired(r: NoteRow, u: NoteRow) {
    && !u.isActive && u.evolutionState == Some("deprecated")
    && u.id == r.id && u.content == r.content && u.layer == r.layer && u.category == r.category && u.room == r.room
    && u.projectId == r.projectId && u.source == r.source && u.confirmed == r.confirmed && u.isHead == r.isHead
    && u.topicKey == r.topicKey && u.rootId == r.rootId && u.createdAt == r.createdAt && u.vector == r.vector
    && u.checkpointTask == r.checkpointTask && u.metadata == r.metadata
  }

  /** The change's words in an active head of the identity layer. */
  predicate CarriesChange(c: Change, project: Option<string>, a: Attempt, u: NoteRow) {
    && u.isActive && u.isHead && u.layer == "identity_schema"
    && u.content == c.content && u.category == c.category && u.vector == a.vector
    && (project.Some? ==> u.projectId == project)
  }

  /** A created row is its own root, in the active state. */
  predicate IsCreated(c: Change, project: Option<string>, a: Attempt, u: NoteRow) {
    && CarriesChange(c, project, a, u) && u.id == a.newId
    && u.projectId == project && u.evolutionState == Some("active") && u.rootId == Some(a.newId)
       && u.createdAt == Some(a.now)
    && u.topicKey.None? && u.room.None? && u.source.None? && !u.confirmed
  }

  /** An updated row keeps its place: its root, topic, room, source, creation time and lifecycle state. */
  predicate IsUpdated(c: Change, project: Option<string>, a: Attempt, r: NoteRow, u: NoteRow) {
    && CarriesChange(c, project, a, u) && u.id == r.id
    && u.projectId == (if project.Some? then project else r.projectId)
    && u.evolutionState == (if r.evolutionState.Some? then r.evolutionState else Some("active"))
    && u.rootId == r.rootId && u.createdAt == r.createdAt && u.topicKey == r.topicKey && u.room == r.room
    && u.source == r.source && u.confirmed == r.confirmed
  }

  predicate Targets(t: Table, c: Change, i: nat) {
    i < |t| && c.targetId == Some(t[i].id) && t[i].layer == "identity_schema"
  }

  /** What applying the change made of the notes. */
  ghost predicate IsApplied(t: Table, c: Change, project: Option<string>, a: Attempt, u: Table) {
    match c.changeType
    case "create" => |u| == |t| + 1 && u[..|t|] == t && IsCreated(c, project, a, u[|t|])
    case "update" => exists i: nat :: Targets(t, c, i) && OnlyAt(t, u, i) && IsUpdated(c, project, a, t[i], u[i])
    case "delete" => exists i: nat :: Targets(t, c, i) && OnlyAt(t, u, i) && IsRetired(t[i], u[i])
    case _ => false
  }

  lemma CreateExactly(t: Table, c: Change, project: Option<string>, a: Attempt)
    requires c.changeType == "create" && !HasId(t, a.newId)
    ensures var u := AppliedNotes(t, c, project, a); u.Some? && IsApplied(t, c, project, a, u.value)
  {
  }

  lemma TargetAt(t: Table, c: Change) returns (i: nat)
    requires c.targetId.Some? && HasIdentityRow(t, c.targetId.value)
    ensures Targets(t, c, i)
  {
    var r :| r in t && r.id == c.targetId.value && r.layer == IDENTITY_LAYER;
    i :| 0 <= i < |t| && t[i] == r;
  }

  lemma UpdateExactly(t: Table, c: Change, project: Option<string>, a: Attempt)
    requires DistinctIds(t) && c.changeType == "update" && AppliedNotes(t, c, project, a).Some?
    ensures IsApplied(t, c, project, a, AppliedNotes(t, c, project, a).value)
  {
    var i := TargetAt(t, c);
    var u := AppliedNotes(t, c, project, a).value;
    assert t[i] in t && HasId(t, c.targetId.value);
    assert |u| == |t|;
    assert OnlyAt(t, u, i);
    assert IsUpdated(c, project, a, t[i], u[i]);
  }

  lemma DeleteExactly(t: Table, c: Change, project: Option<string>, a: Attempt)
    requires DistinctIds(t) && c.changeType == "delete" && AppliedNotes(t, c, project, a).Some?
    ensures IsApplied(t, c, project, a, AppliedNotes(t, c, project, a).value)
  {
    var i := TargetAt(t, c);
    var u := AppliedNotes(t, c, project, a).value;
    assert |u| == |t|;
    assert OnlyAt(t, u, i);
    assert IsRetired(t[i], u[i]);
  }

  lemma AppliedExactly(t: Table, c: Change, project: Option<string>, a: Attempt)
    requires DistinctIds(t) && !HasId(t, a.newId)
    ensures AppliedNotes(t, c, project, a).Some? <==>
            c.changeType == "create" || (c.changeType in {"update", "delete"} && exists i: nat :: Targets(t, c, i))
    ensures AppliedNotes(t, c, project, a).Some? ==> IsApplied(t, c, project, a, AppliedNotes(t, c, project, a).value)
  {
    if c.changeType == "create" {
      CreateExactly(t, c, project, a);
    } else {
      if AppliedNotes(t, c, project, a).Some? {
        var i := TargetAt(t, c);
        if c.changeType == "update" { UpdateExactly(t, c, project, a); } else { DeleteExactly(t, c, project, a); }
      }
      if i: nat :| Targets(t, c, i) {
        assert t[i] in t && HasIdentityRow(t, c.targetId.value);
      }
    }
    hide IsApplied, Upsert;
  }

  /** An approval that applies a change leaves exactly the row that the change calls for. */
  lemma ApprovalApplies(f: Folding, s: HotState, project: Option<string>, a: Attempt)
    requires DistinctIds(s.notes) && !HasId(s.notes, a.newId)
    requires var r := Approve(f, s, project, a).1; r.Done? && r.change.status == "applied"
    ensures a.changeId in s.changes
    ensures IsApplied(s.notes, s.changes[a.changeId], project, a, Approve(f, s, project, a).0.notes)
  {
    RecordedExactly(f, s, project, a);
    AppliedExactly(s.notes, s.changes[a.changeId], project, a);
    hide Greedy, Canonical, Trim, AppliedNotes, IsApplied, IsRecorded, Refuses;
  }

  /** The row an update brings back is live again only if no earlier change had retired it. */
  lemma UpdatedIsLiveExactly(c: Change, project: Option<string>, a: Attempt, r: NoteRow, u: NoteRow)
    requires IsUpdated(c, project, a, r, u)
    ensures u.isHead && u.isActive && u.InActiveState() <==> r.InActiveState()
    ensures u.isHead && u.isActive
  {
  }

  // ---- a proposal's words, at the end of its run ----

  /** The step at `k` applied the change. */
  ghost predicate AppliedAt(w: Setup, s: HotState, ops: seq<Op>, id: string, k: nat) {
    && k < |ops| && ops[k].Approving? && ops[k].attempt.changeId == id
    && var (s', r) := Approve(w.folding, Run(w, s, ops[..k]), w.governanceProject, ops[k].attempt);
       r.Done? && r.change.status == "applied"
  }

  lemma StepApplies(w: Setup, s: HotState, op: Op, id: string)
    requires id in s.changes && s.changes[id].status == "pending"
    requires id in Step(w, s, op).changes && Step(w, s, op).changes[id].status == "applied"
    ensures op.Approving? && op.attempt.changeId == id
    ensures var r := Approve(w.folding, s, w.governanceProject, op.attempt).1; r.Done? && r.change.status == "applied"
  {
    hide Canonical, Trim, Greedy, AppliedNotes, WriteOrchestrator.Rejects, WriteOrchestrator.Written;
  }

  lemma {:induction false} AppliedSomewhere(w: Setup, s: HotState, ops: seq<Op>, id: string) returns (k: nat)
    requires DistinctIds(s.notes) && FreshRun(w, s, ops) && Open(s, id)
    requires id in Run(w, s, ops).changes && Run(w, s, ops).changes[id].status == "applied"
    ensures AppliedAt(w, s, ops, id, k)
  {
    hide Step, Approve;
    var front := ops[..|ops| - 1];
    StillThere(w, s, front, id);
    var mid := Run(w, s, front);
    if mid.changes[id].status == "applied" {
      k := AppliedSomewhere(w, s, front, id);
      assert front[..k] == ops[..k];
    } else {
      StepApplies(w, mid, ops[|ops| - 1], id);
      k := |ops| - 1;
    }
  }

  /** A change is never lost, and keeps its words; it is pending until it is applied. */
  lemma {:induction false} StillThere(w: Setup, s: HotState, ops: seq<Op>, id: string)
    requires id in s.changes && s.changes[id].status in {"pending", "applied"}
    ensures id in Run(w, s, ops).changes
    ensures var c := Run(w, s, ops).changes[id];
            && c.status in {"pending", "applied"}
            && c.content == s.changes[id].content && c.category == s.changes[id].category
            && c.changeType == s.changes[id].changeType && c.targetId == s.changes[id].targetId
  {
    hide Step;
    if ops != [] {
      StillThere(w, s, ops[..|ops| - 1], id);
      StepKeepsWords(w, Run(w, s, ops[..|ops| - 1]), ops[|ops| - 1], id);
    }
  }

  lemma StepKeepsWords(w: Setup, s: HotState, op: Op, id: string)
    requires id in s.changes && s.changes[id].status in {"pending", "applied"}
    ensures id in Step(w, s, op).changes
    ensures var c := Step(w, s, op).changes[id];
            && c.status in {"pending", "applied"}
            && c.content == s.changes[id].content && c.category == s.changes[id].category
            && c.changeType == s.changes[id].changeType && c.targetId == s.changes[id].targetId
  {
    hide Canonical, Trim, Greedy, AppliedNotes, WriteOrchestrator.Rejects, WriteOrchestrator.Written;
  }

  /**
   * A fresh proposal that a run applied: at the step that did, the notes changed as the proposal's own type, target,
   * content and category say.
   */
  lemma ProposalIsCarriedOut(w: Setup, s: HotState, p: Proposal, ops: seq<Op>) returns (k: nat, c: Change)
    requires DistinctIds(s.notes) && p.id !in s.changes && FreshRun(w, Propose(s, p).0, ops)
    requires var end := Run(w, Propose(s, p).0, ops); p.id in end.changes && end.changes[p.id].status == "applied"
    ensures AppliedAt(w, Propose(s, p).0, ops, p.id, k)
    ensures c.content == p.content && c.category == p.category && c.targetId == p.targetId
    ensures c.changeType == if p.changeType.Some? then p.changeType.value else "create"
    ensures IsApplied(Run(w, Propose(s, p).0, ops[..k]).notes, c, w.governanceProject, ops[k].attempt,
                      Run(w, Propose(s, p).0, ops[..k + 1]).notes)
  {
    var s0 := Propose(s, p).0;
    ProposeExactly(s, p);
    hide Propose;
    k := AppliedSomewhere(w, s0, ops, p.id);
    var mid := Run(w, s0, ops[..k]);
    StillThere(w, s0, ops[..k], p.id);
    c := mid.changes[p.id];
    PrefixIsFresh(w, s0, ops, k);
    RunKeepsIds(w, s0, ops[..k]);
    ApprovalApplies(w.folding, mid, w.governanceProject, ops[k].attempt);
    assert ops[..k + 1][..k] == ops[..k];
    hide IsApplied, Approve, FreshRun;
  }

  lemma {:induction false} PrefixIsFresh(w: Setup, s: HotState, ops: seq<Op>, k: nat)
    requires FreshRun(w, s, ops) && k < |ops|
    ensures FreshRun(w, s, ops[..k]) && Fresh(Run(w, s, ops[..k]), ops[k])
  {
    hide Fresh, Step;
    var front := ops[..|ops| - 1];
    if k < |front| {
      PrefixIsFresh(w, s, front, k);
      assert front[..k] == ops[..k];
    }
  }
}
