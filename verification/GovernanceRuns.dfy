/** What the stored approvals of one change are after any run. */
module GovernanceRuns {
  import opened Common
  import opened Text
  import opened Notes
  import opened HotStore
  import opened Governance
  import opened HotRuns

  /** The well-formed approval attempts a run makes on one change, in order. */
  function AttemptsOn(f: Folding, ops: seq<Op>, id: string): seq<Approval> {
    if ops == [] then []
    else
      var front, op := AttemptsOn(f, ops[..|ops| - 1], id), ops[|ops| - 1];
      if op.Approving? && op.attempt.changeId == id && WellFormed(f, op.attempt)
      then front + [EntryOf(op.attempt)] else front
  }

  /** Applying the change would succeed. */
  predicate CanApply(t: Table, c: Change) {
    || c.changeType == "create"
    || (c.changeType in {"update", "delete"} && c.targetId.Some? && HasIdentityRow(t, c.targetId.value))
  }

  lemma CanApplyIsEnough(t: Table, c: Change, project: Option<string>, a: Attempt)
    ensures CanApply(t, c) <==> AppliedNotes(t, c, project, a).Some?
  {
  }

  lemma IdentityIds(t: Table, id: string)
    ensures HasIdentityRow(t, id) <==> exists p <- Identity(t) :: p.0 == id
  {
    if r :| r in t && r.id == id && r.layer == IDENTITY_LAYER {
      assert (r.id, r.content) in Identity(t);
    }
  }

  /** No step removes an identity row. */
  lemma IdentityRowsStay(w: Setup, s: HotState, op: Op, id: string)
    requires DistinctIds(s.notes) && Fresh(s, op) && HasIdentityRow(s.notes, id)
    ensures HasIdentityRow(Step(w, s, op).notes, id)
  {
    var s' := Step(w, s, op);
    StepKeepsIdentity(w, s, op);
    IdentityIds(s.notes, id);
    IdentityIds(s'.notes, id);
    hide Identity, HasIdentityRow, Step, EndsInError, Fresh, DistinctIds, Carried, Greedy;
    var p :| p in Identity(s.notes) && p.0 == id;
    if Identity(s'.notes) != Identity(s.notes) {
      var c := s.changes[op.attempt.changeId];
      if c.changeType == "update" && c.targetId == Some(id) {
        assert (id, c.content) in Identity(s'.notes);
      } else {
        assert p in Identity(s'.notes);
      }
    }
  }

  /** How many approvals the change can come to hold: what it needs, or one more than it starts with if that is more. */
  function Bound(start: seq<Approval>, needed: int): nat {
    if needed > |start| + 1 then needed else |start| + 1
  }

  function Prefix(s: seq<Approval>, n: nat): seq<Approval> {
    if |s| <= n then s else s[..n]
  }

  /**
   * The state of a change, given the approvals it started with and the attempts made since: its approvals are the
   * leading greedy selection, and it is applied exactly when that selection has reached the bound.
   */
  ghost predicate Tracks(f: Folding, start: Change, now: Change, attempts: seq<Approval>, feasible: bool)
    requires start.approvals.Parsed?
  {
    var selection := Greedy(f, start.approvals.entries + attempts);
    var bound := Bound(Greedy(f, start.approvals.entries), start.approvalsNeeded);
    && now.approvals.Parsed?
    && now.changeType == start.changeType && now.targetId == start.targetId && now.content == start.content
    && now.approvalsNeeded == start.approvalsNeeded
    && (now.approvals == start.approvals || now.approvals.entries == Greedy(f, now.approvals.entries))
    && Greedy(f, now.approvals.entries) == Prefix(selection, if feasible then bound else bound - 1)
    && now.status == (if feasible && |selection| >= bound then APPLIED else PENDING)
  }

  lemma {:induction false} GreedyGrows(f: Folding, entries: seq<Approval>, more: seq<Approval>)
    ensures Greedy(f, entries) <= Greedy(f, entries + more)
  {
    if more == [] {
      assert entries + more == entries;
    } else {
      var front := more[..|more| - 1];
      assert (entries + more)[..|entries + more| - 1] == entries + front;
      GreedyGrows(f, entries, front);
    }
  }

  lemma AttemptExtends(f: Folding, entries: seq<Approval>, attempts: seq<Approval>, e: Approval)
    ensures var selection := Greedy(f, entries + attempts);
            Greedy(f, entries + (attempts + [e])) == if ClashesWith(f, selection, e) then selection else selection + [e]
  {
    hide Greedy, ClashesWith;
    assert entries + (attempts + [e]) == entries + attempts + [e];
    GreedyStep(f, entries + attempts, e);
  }

  lemma GreedyStep(f: Folding, entries: seq<Approval>, e: Approval)
    ensures Greedy(f, entries + [e]) ==
            if ClashesWith(f, Greedy(f, entries), e) then Greedy(f, entries) else Greedy(f, entries) + [e]
  {
    assert (entries + [e])[..|entries|] == entries;
  }

  /** A well-formed attempt on a pending, readable change is refused exactly when it clashes with a counted approval. */
  lemma RefusedIffClash(f: Folding, s: HotState, a: Attempt)
    requires WellFormed(f, a) && a.changeId in s.changes
    requires s.changes[a.changeId].status == PENDING && s.changes[a.changeId].approvals.Parsed?
    ensures Refuses(f, s, a).Some? <==> ClashesWith(f, Greedy(f, s.changes[a.changeId].approvals.entries), EntryOf(a))
  {
    hide Canonical, Trim, Greedy;
  }

  /** An accepted approval is recorded, applied at the threshold, or rolled back when it cannot be applied. */
  lemma AcceptedOutcome(w: Setup, s: HotState, a: Attempt)
    requires a.changeId in s.changes && Refuses(w.folding, s, a).None?
    ensures var c := s.changes[a.changeId];
            var chosen := Greedy(w.folding, c.approvals.entries) + [EntryOf(a)];
            var s' := Step(w, s, Approving(a));
            if |chosen| >= c.approvalsNeeded && !CanApply(s.notes, c) then s' == s
            else a.changeId in s'.changes
                 && s'.changes[a.changeId].approvals == Parsed(chosen)
                 && s'.changes[a.changeId] ==
                    c.(approvals := Parsed(chosen), approvalsCount := |chosen|, updatedAt := a.now,
                      status := if |chosen| >= c.approvalsNeeded then APPLIED else c.status,
                      appliedAt := if |chosen| >= c.approvalsNeeded then Some(a.now) else c.appliedAt)
    ensures Refuses(w.folding, s, a).None? ==> s.changes[a.changeId].status == PENDING
  {
    CanApplyIsEnough(s.notes, s.changes[a.changeId], w.governanceProject, a);
    hide Canonical, Trim, Greedy, AppliedNotes, CanApply;
  }

  lemma OthersUntouched(w: Setup, s: HotState, op: Op, id: string)
    requires id in s.changes && !(op.Approving? && op.attempt.changeId == id && WellFormed(w.folding, op.attempt))
    ensures id in Step(w, s, op).changes && Step(w, s, op).changes[id] == s.changes[id]
  {
    hide Canonical, Trim, Greedy, AppliedNotes, WriteOrchestrator.Rejects, WriteOrchestrator.Written;
  }

  /** A refused attempt adds nothing to the counted prefix of the selection. */
  lemma RefusedTracks(f: Folding, start: Change, c: Change, attempts: seq<Approval>, e: Approval, feasible: bool)
    requires start.approvals.Parsed? && Tracks(f, start, c, attempts, feasible)
    requires c.status != PENDING || ClashesWith(f, Greedy(f, c.approvals.entries), e)
    ensures Tracks(f, start, c, attempts + [e], feasible)
  {
    var entries := start.approvals.entries;
    hide Greedy, ClashesWith, Bound, Prefix, Clash;
    var selection, taken := Greedy(f, entries + attempts), Greedy(f, entries + (attempts + [e]));
    AttemptExtends(f, entries, attempts, e);
    var cap := Bound(Greedy(f, entries), start.approvalsNeeded) - if feasible then 0 else 1;
    var stored := if c.status == PENDING then Greedy(f, c.approvals.entries) else selection;
    RefusedSelection(f, selection, cap, e, stored, taken);
  }

  /** Either the refused attempt clashes with the selection too, or the counted prefix is already full. */
  lemma RefusedSelection(f: Folding, selection: seq<Approval>, cap: nat, e: Approval, stored: seq<Approval>,
                         taken: seq<Approval>)
    requires taken == if ClashesWith(f, selection, e) then selection else selection + [e]
    requires |selection| >= cap || (stored == Prefix(selection, cap) && ClashesWith(f, stored, e))
    ensures Prefix(taken, cap) == Prefix(selection, cap)
    ensures |taken| >= cap <==> |selection| >= cap
  {
    hide ClashesWith;
    PrefixOf(selection, cap);
    PrefixStays(selection, e, cap);
    if |selection| < cap {
      ClashSpreads(f, stored, selection, e);
    }
  }

  lemma PrefixOf(s: seq<Approval>, n: nat)
    ensures Prefix(s, n) <= s
  {
  }

  lemma PrefixStays(s: seq<Approval>, e: Approval, n: nat)
    ensures |s| >= n ==> Prefix(s + [e], n) == Prefix(s, n)
  {
  }

  /** An attempt that does not clash extends the counted approvals, unless the change cannot be applied. */
  lemma AcceptedTracks(f: Folding, start: Change, c: Change, c': Change, attempts: seq<Approval>, e: Approval,
                       feasible: bool)
    requires start.approvals.Parsed? && Tracks(f, start, c, attempts, feasible)
    requires c.status == PENDING && !ClashesWith(f, Greedy(f, c.approvals.entries), e)
    requires var chosen := Greedy(f, c.approvals.entries) + [e];
             if |chosen| >= c.approvalsNeeded && !feasible then c' == c
             else c'.approvals == Parsed(chosen)
                  && c' == c.(approvals := c'.approvals, approvalsCount := c'.approvalsCount, updatedAt := c'.updatedAt,
                       appliedAt := c'.appliedAt, status := if |chosen| >= c.approvalsNeeded then APPLIED else c.status)
    ensures Tracks(f, start, c', attempts + [e], feasible)
  {
    hide Greedy, ClashesWith, PairwiseDistinct, Bound, Prefix;
    var entries := start.approvals.entries;
    var selection, chosen := Greedy(f, entries + attempts), Greedy(f, c.approvals.entries) + [e];
    var taken := Greedy(f, entries + (attempts + [e]));
    AttemptExtends(f, entries, attempts, e);
    GreedyGrows(f, entries, attempts);
    ChosenIsDistinct(f, c.approvals.entries, e);
    GreedyOfDistinct(f, chosen);
    CountingUp(Greedy(f, entries), selection, taken, Greedy(f, c.approvals.entries), e, c.approvalsNeeded, feasible);
  }

  /** The arithmetic of one accepted approval against the bound. */
  lemma CountingUp(first: seq<Approval>, selection: seq<Approval>, taken: seq<Approval>, stored: seq<Approval>,
                   e: Approval, needed: int, feasible: bool)
    requires first <= selection && (taken == selection || taken == selection + [e])
    requires stored == selection ==> taken == selection + [e]
    requires feasible ==> |selection| < Bound(first, needed)
    requires stored == Prefix(selection, if feasible then Bound(first, needed) else Bound(first, needed) - 1)
    ensures feasible ==> stored + [e] == Prefix(taken, Bound(first, needed))
    ensures feasible ==> (|stored + [e]| >= needed <==> |taken| >= Bound(first, needed))
    ensures !feasible && |stored + [e]| >= needed ==> stored == Prefix(taken, Bound(first, needed) - 1)
    ensures !feasible && |stored + [e]| < needed ==> stored + [e] == Prefix(taken, Bound(first, needed) - 1)
  {
  }

  lemma ChosenIsDistinct(f: Folding, entries: seq<Approval>, e: Approval)
    requires !ClashesWith(f, Greedy(f, entries), e)
    ensures PairwiseDistinct(f, Greedy(f, entries) + [e])
  {
    GreedyIsDistinct(f, entries);
    hide Greedy, Clash;
  }

  /** One more attempt keeps the change on track. */
  lemma AttemptTracks(w: Setup, start: Change, s: HotState, a: Attempt, attempts: seq<Approval>, feasible: bool)
    requires start.approvals.Parsed? && a.changeId in s.changes && WellFormed(w.folding, a)
    requires Tracks(w.folding, start, s.changes[a.changeId], attempts, feasible)
    requires feasible <==> CanApply(s.notes, s.changes[a.changeId])
    ensures a.changeId in Step(w, s, Approving(a)).changes
    ensures Tracks(w.folding, start, Step(w, s, Approving(a)).changes[a.changeId], attempts + [EntryOf(a)], feasible)
  {
    var c := s.changes[a.changeId];
    if c.status == PENDING {
      RefusedIffClash(w.folding, s, a);
    }
    RefusalKeepsState(w, s, a);
    if Refuses(w.folding, s, a).None? {
      AcceptedOutcome(w, s, a);
      hide Tracks, Greedy, ClashesWith, CanApply, Step, Refuses, WellFormed;
      AcceptedTracks(w.folding, start, c, Step(w, s, Approving(a)).changes[a.changeId], attempts, EntryOf(a), feasible);
    } else {
      RefusedTracks(w.folding, start, c, attempts, EntryOf(a), feasible);
    }
  }

  lemma RefusalKeepsState(w: Setup, s: HotState, a: Attempt)
    ensures Refuses(w.folding, s, a).Some? ==> Step(w, s, Approving(a)) == s
    ensures a.changeId in s.changes && s.changes[a.changeId].status != PENDING ==> Refuses(w.folding, s, a).Some?
  {
    hide Canonical, Trim, Greedy, AppliedNotes;
  }

  lemma ClashSpreads(f: Folding, few: seq<Approval>, many: seq<Approval>, e: Approval)
    requires ClashesWith(f, few, e) && few <= many
    ensures ClashesWith(f, many, e)
  {
    var c :| c in few && Clash(f, c, e);
    assert c in many;
  }

  // ---- whole runs ----

  /** The change cannot be applied in any state the run leaves behind with an operation still to come. */
  predicate Blocked(w: Setup, s: HotState, ops: seq<Op>, c: Change) {
    forall j | 0 <= j < |ops| :: !CanApply(Run(w, s, ops[..j]).notes, c)
  }

  /** Whether the change can be applied all through the run, or at no point of it. */
  predicate Steady(w: Setup, s: HotState, ops: seq<Op>, c: Change, feasible: bool) {
    if feasible then CanApply(s.notes, c) else Blocked(w, s, ops, c)
  }

  lemma BlockedFront(w: Setup, s: HotState, ops: seq<Op>, c: Change)
    requires ops != [] && Blocked(w, s, ops, c)
    ensures Blocked(w, s, ops[..|ops| - 1], c) && !CanApply(Run(w, s, ops[..|ops| - 1]).notes, c)
  {
    var front := ops[..|ops| - 1];
    forall j | 0 <= j < |front| ensures !CanApply(Run(w, s, front[..j]).notes, c) {
      assert front[..j] == ops[..j];
    }
  }

  /** Once a change can be applied it stays so: no operation removes an identity row. */
  lemma {:induction false} CanApplyStays(w: Setup, s: HotState, ops: seq<Op>, c: Change)
    requires DistinctIds(s.notes) && FreshRun(w, s, ops) && CanApply(s.notes, c)
    ensures CanApply(Run(w, s, ops).notes, c)
  {
    hide Step;
    if ops != [] {
      var front := ops[..|ops| - 1];
      CanApplyStays(w, s, front, c);
      RunKeepsIds(w, s, front);
      if c.changeType != "create" {
        IdentityRowsStay(w, Run(w, s, front), ops[|ops| - 1], c.targetId.value);
      }
    }
  }

  /** What the run makes of the change: `Tracks`, from its state at the start to its state at the end. */
  ghost predicate TracksOver(w: Setup, s: HotState, ops: seq<Op>, id: string, feasible: bool) {
    && id in s.changes && s.changes[id].approvals.Parsed?
    && id in Run(w, s, ops).changes
    && Tracks(w.folding, s.changes[id], Run(w, s, ops).changes[id], AttemptsOn(w.folding, ops, id), feasible)
  }

  predicate Open(s: HotState, id: string) {
    id in s.changes && s.changes[id].status == PENDING && s.changes[id].approvals.Parsed?
  }

  /**
   * After a run all through which the change can be applied, or at no point of which it can: its counted approvals are
   * the first `bound` of the greedy selection over its earlier approvals and the attempts made on it, whatever else the
   * run did, and it is applied exactly when the selection reached the bound; where it cannot be applied it stops one
   * short, pending.
   */
  lemma {:induction false} SteadyRunTracks(w: Setup, s: HotState, ops: seq<Op>, id: string, feasible: bool)
    requires DistinctIds(s.notes) && FreshRun(w, s, ops) && Open(s, id)
    requires Steady(w, s, ops, s.changes[id], feasible)
    ensures TracksOver(w, s, ops, id, feasible)
  {
    if ops == [] {
      StartTracks(w.folding, s.changes[id], feasible);
    } else {
      hide Step, Tracks, AppliedNotes, CanApply, Blocked;
      var front, op := ops[..|ops| - 1], ops[|ops| - 1];
      var mid := Run(w, s, front);
      if feasible {
        CanApplyStays(w, s, front, s.changes[id]);
      } else {
        BlockedFront(w, s, ops, s.changes[id]);
      }
      SteadyRunTracks(w, s, front, id, feasible);
      RunKeepsIds(w, s, front);
      SameTarget(w.folding, s.changes[id], mid, id, AttemptsOn(w.folding, front, id), feasible);
      StepTracks(w, s.changes[id], mid, op, id, AttemptsOn(w.folding, front, id), feasible);
    }
  }

  lemma SameTarget(f: Folding, start: Change, s: HotState, id: string, attempts: seq<Approval>, feasible: bool)
    requires id in s.changes && start.approvals.Parsed? && Tracks(f, start, s.changes[id], attempts, feasible)
    ensures CanApply(s.notes, s.changes[id]) <==> CanApply(s.notes, start)
  {
    hide Greedy, Bound, Prefix;
  }

  lemma StartTracks(f: Folding, c: Change, feasible: bool)
    requires c.status == PENDING && c.approvals.Parsed?
    ensures Tracks(f, c, c, [], feasible)
  {
    assert c.approvals.entries + [] == c.approvals.entries;
  }

  lemma StepTracks(w: Setup, start: Change, s: HotState, op: Op, id: string, attempts: seq<Approval>, feasible: bool)
    requires DistinctIds(s.notes) && Fresh(s, op) && id in s.changes && start.approvals.Parsed?
    requires Tracks(w.folding, start, s.changes[id], attempts, feasible)
    requires feasible <==> CanApply(s.notes, s.changes[id])
    ensures var s' := Step(w, s, op);
            var mine := op.Approving? && op.attempt.changeId == id && WellFormed(w.folding, op.attempt);
            && id in s'.changes
            && var now := if mine then attempts + [EntryOf(op.attempt)] else attempts;
               Tracks(w.folding, start, s'.changes[id], now, feasible)
  {
    hide Tracks, Step, CanApply, WellFormed;
    if op.Approving? && op.attempt.changeId == id && WellFormed(w.folding, op.attempt) {
      AttemptTracks(w, start, s, op.attempt, attempts, feasible);
    } else {
      OthersUntouched(w, s, op, id);
    }
  }

  /** How many operations, from `at` on, until the change can be applied; one more than all of them if it never can. */
  function FirstFeasible(w: Setup, s: HotState, ops: seq<Op>, c: Change, at: nat): nat
    decreases |ops| + 1 - at
  {
    if at > |ops| || CanApply(Run(w, s, ops[..at]).notes, c) then at else FirstFeasible(w, s, ops, c, at + 1)
  }

  lemma {:induction false} FirstFeasibleIs(w: Setup, s: HotState, ops: seq<Op>, c: Change, at: nat)
    requires at <= |ops| + 1
    ensures var k := FirstFeasible(w, s, ops, c, at);
            && at <= k <= |ops| + 1
            && (k <= |ops| ==> CanApply(Run(w, s, ops[..k]).notes, c))
            && forall j | at <= j < k && j <= |ops| :: !CanApply(Run(w, s, ops[..j]).notes, c)
    decreases |ops| + 1 - at
  {
    hide CanApply, Run;
    if at <= |ops| && !CanApply(Run(w, s, ops[..at]).notes, c) {
      FirstFeasibleIs(w, s, ops, c, at + 1);
    }
  }

  lemma {:induction false} RunSplits(w: Setup, s: HotState, a: seq<Op>, b: seq<Op>)
    ensures Run(w, s, a + b) == Run(w, Run(w, s, a), b)
    ensures FreshRun(w, s, a + b) <==> FreshRun(w, s, a) && FreshRun(w, Run(w, s, a), b)
  {
    hide Step, Fresh;
    if b == [] {
      assert a + b == a;
    } else {
      var front := b[..|b| - 1];
      assert (a + b)[..|a + b| - 1] == a + front;
      RunSplits(w, s, a, front);
    }
  }

  /** A stretch in which the change cannot be applied, and the rest of the run, from where it can. */
  ghost predicate TracksInPhases(w: Setup, s: HotState, before: seq<Op>, after: seq<Op>, id: string) {
    var mid := Run(w, s, before);
    && TracksOver(w, s, before, id, false) && Open(mid, id)
    && SameBound(w.folding, s.changes[id], mid.changes[id])
    && TracksOver(w, mid, after, id, true) && Run(w, mid, after) == Run(w, s, before + after)
  }

  lemma PhasesTrack(w: Setup, s: HotState, before: seq<Op>, after: seq<Op>, id: string)
    requires DistinctIds(s.notes) && FreshRun(w, s, before + after) && Open(s, id)
    requires Blocked(w, s, before, s.changes[id]) && CanApply(Run(w, s, before).notes, s.changes[id])
    ensures TracksInPhases(w, s, before, after, id)
  {
    hide Blocked, Run, FreshRun, TracksOver, CanApply, SameBound, DistinctIds;
    RunSplits(w, s, before, after);
    RunKeepsIds(w, s, before);
    SteadyRunTracks(w, s, before, id, false);
    BlockedStaysOpen(w, s, before, id);
    SteadyRunTracks(w, Run(w, s, before), after, id, true);
  }

  lemma NeverFeasibleTracks(w: Setup, s: HotState, ops: seq<Op>, id: string)
    requires DistinctIds(s.notes) && FreshRun(w, s, ops) && Open(s, id)
    requires FirstFeasible(w, s, ops, s.changes[id], 0) > |ops|
    ensures TracksOver(w, s, ops, id, false)
  {
    hide Run, FreshRun, TracksOver, FirstFeasible, CanApply;
    FirstFeasibleIs(w, s, ops, s.changes[id], 0);
    SteadyRunTracks(w, s, ops, id, false);
  }

  lemma FeasibleFromTracks(w: Setup, s: HotState, ops: seq<Op>, id: string, k: nat)
    requires DistinctIds(s.notes) && FreshRun(w, s, ops) && Open(s, id)
    requires k <= |ops| && FirstFeasible(w, s, ops, s.changes[id], 0) == k
    ensures TracksInPhases(w, s, ops[..k], ops[k..], id)
  {
    hide Run, FreshRun, TracksInPhases, FirstFeasible, CanApply, Blocked;
    FirstFeasibleIs(w, s, ops, s.changes[id], 0);
    BlockedBefore(w, s, ops, s.changes[id], k);
    assert ops == ops[..k] + ops[k..];
    PhasesTrack(w, s, ops[..k], ops[k..], id);
  }

  /**
   * Every run, for a change that is pending when it starts. Up to the point where the change can first be applied its
   * approvals stop one short of the bound; from there on they are the leading selection over what was stored by then
   * and the attempts that follow, and it is applied exactly when that selection reaches the bound.
   */
  lemma RunTracks(w: Setup, s: HotState, ops: seq<Op>, id: string)
    requires DistinctIds(s.notes) && FreshRun(w, s, ops) && Open(s, id)
    ensures var k := FirstFeasible(w, s, ops, s.changes[id], 0);
            if k > |ops| then TracksOver(w, s, ops, id, false) else TracksInPhases(w, s, ops[..k], ops[k..], id)
  {
    hide Run, FreshRun, TracksOver, TracksInPhases, FirstFeasible, DistinctIds;
    var k := FirstFeasible(w, s, ops, s.changes[id], 0);
    if k > |ops| {
      NeverFeasibleTracks(w, s, ops, id);
    } else {
      FeasibleFromTracks(w, s, ops, id, k);
    }
  }

  lemma BlockedBefore(w: Setup, s: HotState, ops: seq<Op>, c: Change, k: nat)
    requires k <= |ops| && forall j | 0 <= j < k :: !CanApply(Run(w, s, ops[..j]).notes, c)
    ensures Blocked(w, s, ops[..k], c)
  {
    hide Run, CanApply;
    forall j | 0 <= j < k ensures !CanApply(Run(w, s, ops[..k][..j]).notes, c) {
      assert ops[..k][..j] == ops[..j];
    }
  }

  lemma BlockedStaysOpen(w: Setup, s: HotState, ops: seq<Op>, id: string)
    requires TracksOver(w, s, ops, id, false)
    ensures var end := Run(w, s, ops);
            && Open(end, id) && SameBound(w.folding, s.changes[id], end.changes[id])
            && (CanApply(end.notes, end.changes[id]) <==> CanApply(end.notes, s.changes[id]))
  {
    hide Run;
    BlockedStaysPending(w.folding, s.changes[id], Run(w, s, ops), id, AttemptsOn(w.folding, ops, id));
    hide Tracks, CanApply;
  }

  /** Waiting does not move the threshold. */
  predicate SameBound(f: Folding, start: Change, now: Change) {
    && start.approvals.Parsed? && now.approvals.Parsed?
    && Bound(Greedy(f, now.approvals.entries), now.approvalsNeeded) ==
       Bound(Greedy(f, start.approvals.entries), start.approvalsNeeded)
  }

  lemma BlockedStaysPending(f: Folding, start: Change, s: HotState, id: string, attempts: seq<Approval>)
    requires id in s.changes && start.approvals.Parsed? && Tracks(f, start, s.changes[id], attempts, false)
    ensures s.changes[id].status == PENDING && s.changes[id].approvals.Parsed? && SameBound(f, start, s.changes[id])
    ensures CanApply(s.notes, s.changes[id]) <==> CanApply(s.notes, start)
  {
    GreedyGrows(f, start.approvals.entries, attempts);
    hide Greedy;
  }

  /** A fresh proposal: at most three approvals, no two clashing, and applied iff three were selected. */
  lemma FreshProposalRun(w: Setup, s: HotState, p: Proposal, ops: seq<Op>)
    requires DistinctIds(s.notes) && p.id !in s.changes
    requires FreshRun(w, Propose(s, p).0, ops)
    requires CanApply(s.notes, Propose(s, p).0.changes[p.id])
    ensures var end := Run(w, Propose(s, p).0, ops);
            var selection := Greedy(w.folding, AttemptsOn(w.folding, ops, p.id));
            && p.id in end.changes
            && end.changes[p.id].approvals.Parsed?
            && end.changes[p.id].approvals.entries == Prefix(selection, 3)
            && (end.changes[p.id].status == APPLIED <==> |selection| >= 3)
  {
    var s0 := Propose(s, p).0;
    var attempts := AttemptsOn(w.folding, ops, p.id);
    SteadyRunTracks(w, s0, ops, p.id, true);
    assert [] + attempts == attempts;
    assert Greedy(w.folding, []) == [];
  }
}
