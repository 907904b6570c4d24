/** L0 identity changes under triple approval: `governance/mod.rs`. */
module Governance {
  import opened Common
  import opened Text
  import opened Notes
  import opened HotStore

  const APPROVALS_NEEDED := 3

  // ---- approver labels ----

  /** Code points that display as nothing. */
  predicate IsDefaultIgnorable(c: char) {
    || c in {'\U{200B}', '\U{200C}', '\U{200D}', '\U{FEFF}', '\U{2060}', '\U{00AD}', '\U{180E}', '\U{034F}'}
    || '\U{202A}' <= c <= '\U{202E}'
    || '\U{2066}' <= c <= '\U{2069}'
    || '\U{FE00}' <= c <= '\U{FE0F}'
    || '\U{E0100}' <= c <= '\U{E01EF}'
    || '\U{E0000}' <= c <= '\U{E007F}'
  }

  /** The code points by number. */
  lemma IgnorableExactly(c: char)
    ensures var n := c as int;
            IsDefaultIgnorable(c) <==>
            || n == 0x00AD || n == 0x034F || n == 0x180E || 0x200B <= n <= 0x200D || 0x202A <= n <= 0x202E
            || n == 0x2060 || 0x2066 <= n <= 0x2069 || 0xFE00 <= n <= 0xFE0F || n == 0xFEFF
            || 0xE0000 <= n <= 0xE007F || 0xE0100 <= n <= 0xE01EF
  {
  }

  function DropIgnorable(s: string): string {
    if s == "" then ""
    else (if IsDefaultIgnorable(s[0]) then "" else [s[0]]) + DropIgnorable(s[1..])
  }

  /** Unicode tables the model does not spell out. */
  datatype Folding = Folding(nfkc: string -> string, lower: string -> string)

  /** `canonicalize_approver`. */
  function Canonical(f: Folding, s: string): string {
    f.lower(Trim(f.nfkc(DropIgnorable(s))))
  }

  lemma {:induction false} DropAppend(a: string, b: string)
    ensures DropIgnorable(a + b) == DropIgnorable(a) + DropIgnorable(b)
  {
    if a == "" {
      assert a + b == b;
    } else {
      assert (a + b)[1..] == a[1..] + b;
      DropAppend(a[1..], b);
    }
  }

  /** Invisible characters anywhere in a label do not make a new approver. */
  lemma InvisibleCharactersFold(f: Folding, a: string, hidden: string, b: string)
    requires forall c <- hidden :: IsDefaultIgnorable(c)
    ensures Canonical(f, a + hidden + b) == Canonical(f, a + b)
  {
    DropAppend(a + hidden, b);
    DropAppend(a, hidden);
    DropAppend(a, b);
    AllDropped(hidden);
    assert DropIgnorable(a) + "" + DropIgnorable(b) == DropIgnorable(a) + DropIgnorable(b);
    assert DropIgnorable(a + hidden + b) == DropIgnorable(a + b);
  }

  lemma {:induction false} AllDropped(hidden: string)
    requires forall c <- hidden :: IsDefaultIgnorable(c)
    ensures DropIgnorable(hidden) == ""
  {
    if hidden != "" {
      assert hidden[0] in hidden;
      AllDropped(hidden[1..]);
    }
  }

  // ---- deduplicating approvals ----

  function Principal(a: Approval): string {
    a.actorId.GetOr(a.approver)
  }

  function Label(f: Folding, a: Approval): string {
    Canonical(f, a.approver)
  }

  /** Two approvals count as one when they share a principal or a canonical label. */
  predicate Clash(f: Folding, a: Approval, b: Approval) {
    Principal(a) == Principal(b) || Label(f, a) == Label(f, b)
  }

  predicate ClashesWith(f: Folding, chosen: seq<Approval>, a: Approval) {
    exists c <- chosen :: Clash(f, c, a)
  }

  /** First come, first counted: an approval is taken unless it clashes with one already taken. */
  function Greedy(f: Folding, entries: seq<Approval>): (r: seq<Approval>)
    ensures |r| <= |entries|
  {
    if entries == [] then []
    else
      var chosen := Greedy(f, entries[..|entries| - 1]);
      var last := entries[|entries| - 1];
      if ClashesWith(f, chosen, last) then chosen else chosen + [last]
  }

  predicate PairwiseDistinct(f: Folding, entries: seq<Approval>) {
    forall i, j | 0 <= i < j < |entries| :: !Clash(f, entries[i], entries[j])
  }

  lemma {:induction false} GreedyIsDistinct(f: Folding, entries: seq<Approval>)
    ensures PairwiseDistinct(f, Greedy(f, entries))
    ensures forall a <- entries :: ClashesWith(f, Greedy(f, entries), a)
  {
    if entries != [] {
      var front, last := entries[..|entries| - 1], entries[|entries| - 1];
      GreedyIsDistinct(f, front);
      var chosen := Greedy(f, front);
      assert entries == front + [last];
      forall a <- entries ensures ClashesWith(f, Greedy(f, entries), a) {
        if a in front {
          var c :| c in chosen && Clash(f, c, a);
          assert c in Greedy(f, entries);
        } else if !ClashesWith(f, chosen, last) {
          assert last in Greedy(f, entries) && Clash(f, last, last);
        }
      }
    }
  }

  lemma {:induction false} GreedyOfDistinct(f: Folding, entries: seq<Approval>)
    requires PairwiseDistinct(f, entries)
    ensures Greedy(f, entries) == entries
  {
    if entries != [] {
      var front, last := entries[..|entries| - 1], entries[|entries| - 1];
      GreedyOfDistinct(f, front);
      assert entries == front + [last];
      assert !ClashesWith(f, front, last);
    }
  }

  /** The normalisation loop of `approve_inner` with its two key sets. */
  method NormalizeApprovals(f: Folding, parsed: seq<Approval>)
    returns (approvals: seq<Approval>, seenPrincipals: set<string>, seenApprovers: set<string>)
    ensures approvals == Greedy(f, parsed)
    ensures seenPrincipals == set a <- approvals :: Principal(a)
    ensures seenApprovers == set a <- approvals :: Label(f, a)
  {
    hide Canonical;
    approvals, seenPrincipals, seenApprovers := [], {}, {};
    for i := 0 to |parsed|
      invariant approvals == Greedy(f, parsed[..i])
      invariant seenPrincipals == set a <- approvals :: Principal(a)
      invariant seenApprovers == set a <- approvals :: Label(f, a)
    {
      var a := parsed[i];
      var principalKey, approverKey := Principal(a), Label(f, a);
      assert parsed[..i + 1][..i] == parsed[..i];
      assert ClashesWith(f, approvals, a) <==> principalKey in seenPrincipals || approverKey in seenApprovers;
      if principalKey !in seenPrincipals && approverKey !in seenApprovers {
        seenPrincipals := seenPrincipals + {principalKey};
        seenApprovers := seenApprovers + {approverKey};
        approvals := approvals + [a];
      }
    }
    assert parsed[..|parsed|] == parsed;
  }

  // ---- proposing and approving ----

  datatype Proposal = Proposal(
    id: string, content: string, reason: string, changeType: Option<string>, targetId: Option<string>,
    category: Option<string>, proposer: Option<string>, now: string)

  /** One call of `approve_change_for_principal`; `newId` and `vector` are what the id and embedding services answer. */
  datatype Attempt = Attempt(
    changeId: string, actorId: string, approver: Option<string>, comment: Option<string>, now: string,
    newId: string, vector: StoredVector)

  datatype Refusal =
    | EmptyPrincipal
    | EmptyApprover
    | EmptyCanonicalApprover
    | ChangeNotFound
    | NotPending
    | ApprovalsCorrupted
    | ApproverSeen
    | PrincipalSeen
    | ApplyFailed
    | DuplicateChangeId

  datatype Result = Done(change: Change) | Refused(why: Refusal)

  function EntryOf(a: Attempt): Approval {
    Approval(a.approver.GetOr(a.actorId), Some(a.actorId), a.comment, a.now)
  }

  /** The checks made before the database is touched. */
  predicate WellFormed(f: Folding, a: Attempt) {
    && Trim(a.actorId) != ""
    && Trim(a.approver.GetOr(a.actorId)) != ""
    && Canonical(f, a.approver.GetOr(a.actorId)) != ""
  }

  predicate HasIdentityRow(t: Table, id: string) {
    exists r <- t :: r.id == id && r.layer == IDENTITY_LAYER
  }

  function IdentityRow(id: string, c: Change, project: Option<string>, a: Attempt): NoteRow {
    NoteRow(id, c.content, IDENTITY_LAYER, c.category, None, project, None, false, true, true, Some("active"),
            None, None, Some(a.now), a.vector, None, "")
  }

  function Retire(r: NoteRow): NoteRow {
    r.(isActive := false, evolutionState := Some("deprecated"))
  }

  /** The status row of a change that has been applied. */
  function Applied(c: Change, now: string): Change {
    c.(status := APPLIED, appliedAt := Some(now), updatedAt := now)
  }

  /** What applying the change does to the notes; nothing when it fails. */
  function AppliedNotes(t: Table, c: Change, project: Option<string>, a: Attempt): Option<Table> {
    if c.changeType == "create" then Some(Upsert(t, IdentityRow(a.newId, c, project, a)))
    else if c.changeType == "update" then
      if c.targetId.Some? && HasIdentityRow(t, c.targetId.value)
      then Some(Upsert(t, IdentityRow(c.targetId.value, c, project, a))) else None
    else if c.changeType == "delete" then
      if c.targetId.Some? && HasIdentityRow(t, c.targetId.value)
      then Some(UpdateWhere(t, (r: NoteRow) => r.id == c.targetId.value && r.layer == IDENTITY_LAYER,
                            (r: NoteRow) => Retire(r)))
      else None
    else None
  }

  function Propose(s: HotState, p: Proposal): (HotState, Result) {
    var c := Change(p.changeType.GetOr("create"), p.content, p.reason, p.targetId, p.category, PENDING, 0,
                    APPROVALS_NEEDED, Parsed([]), p.proposer.GetOr("mcp"), p.now, p.now, None);
    if p.id in s.changes then (s, Refused(DuplicateChangeId)) else (s.(changes := s.changes[p.id := c]), Done(c))
  }

  /** The verdict on an attempt before anything is written. */
  function Refuses(f: Folding, s: HotState, a: Attempt): Option<Refusal> {
    if Trim(a.actorId) == "" then Some(EmptyPrincipal)
    else if Trim(a.approver.GetOr(a.actorId)) == "" then Some(EmptyApprover)
    else if Canonical(f, a.approver.GetOr(a.actorId)) == "" then Some(EmptyCanonicalApprover)
    else if a.changeId !in s.changes then Some(ChangeNotFound)
    else
      var c := s.changes[a.changeId];
      if c.status != PENDING then Some(NotPending)
      else if c.approvals.Corrupted? then Some(ApprovalsCorrupted)
      else
        var chosen := Greedy(f, c.approvals.entries);
        if exists e <- chosen :: Label(f, e) == Label(f, EntryOf(a)) then Some(ApproverSeen)
        else if exists e <- chosen :: Principal(e) == a.actorId then Some(PrincipalSeen)
        else None
  }

  /** Recording an accepted approval: the threshold decides whether the change is applied in the same step. */
  function Record(f: Folding, s: HotState, project: Option<string>, a: Attempt): (HotState, Result)
    requires a.changeId in s.changes && s.changes[a.changeId].approvals.Parsed?
  {
    var c := s.changes[a.changeId];
    var approvals := Greedy(f, c.approvals.entries) + [EntryOf(a)];
    var counted := c.(approvals := Parsed(approvals), approvalsCount := |approvals|, updatedAt := a.now);
    if |approvals| < c.approvalsNeeded then (s.(changes := s.changes[a.changeId := counted]), Done(counted))
    else
      var notes := AppliedNotes(s.notes, c, project, a);
      var done := counted.(status := APPLIED, appliedAt := Some(a.now));
      if notes.None? then (s, Refused(ApplyFailed))
      else (HotState(notes.value, s.changes[a.changeId := done]), Done(done))
  }

  function Approve(f: Folding, s: HotState, project: Option<string>, a: Attempt): (HotState, Result) {
    var why := Refuses(f, s, a);
    if why.Some? then (s, Refused(why.value)) else Record(f, s, project, a)
  }

  class GovernanceService {
    const store: Store
    const projectId: Option<string>
    const folding: Folding

    constructor (store: Store, projectId: Option<string>, folding: Folding)
      ensures this.store == store && this.projectId == projectId && this.folding == folding
    {
      this.store, this.projectId, this.folding := store, projectId, folding;
    }

    /** `propose_change`: the id is the primary key, so an insert under a taken id fails. */
    method ProposeChange(p: Proposal) returns (r: Result)
      modifies store
      ensures (store.State(), r) == Propose(old(store.State()), p)
    {
      if p.id in store.changes {
        return Refused(DuplicateChangeId);
      }
      var c := Change(p.changeType.GetOr("create"), p.content, p.reason, p.targetId, p.category, PENDING, 0,
                      APPROVALS_NEEDED, Parsed([]), p.proposer.GetOr("mcp"), p.now, p.now, None);
      store.changes := store.changes[p.id := c];
      r := Done(c);
    }

    /** `approve_change_for_principal`: one transaction, rolled back on any refusal. */
    method ApproveChangeForPrincipal(a: Attempt) returns (r: Result)
      requires store.saved.None?
      modifies store
      ensures (store.State(), r) == Approve(folding, old(store.State()), projectId, a)
      ensures store.saved.None?
    {
      hide Canonical, Trim, Greedy, AppliedNotes;
      if Trim(a.actorId) == "" {
        return Refused(EmptyPrincipal);
      }
      var approverName := a.approver.GetOr(a.actorId);
      if Trim(approverName) == "" {
        return Refused(EmptyApprover);
      }
      if Canonical(folding, approverName) == "" {
        return Refused(EmptyCanonicalApprover);
      }
      store.Begin();
      r := ApproveInner(a);
      if r.Done? {
        store.Commit();
      } else {
        store.Rollback();
      }
    }

    /** `approve_inner`, inside the open transaction; on a refusal the tables may be half written. */
    method ApproveInner(a: Attempt) returns (r: Result)
      requires store.saved.Some? && WellFormed(folding, a)
      modifies store
      ensures store.saved == old(store.saved)
      ensures var (s, expected) := Approve(folding, old(store.State()), projectId, a);
              r == expected && (r.Done? ==> store.State() == s)
    {
      hide Canonical, Trim, Greedy, AppliedNotes;
      if a.changeId !in store.changes {
        return Refused(ChangeNotFound);
      }
      var c := store.changes[a.changeId];
      if c.status != PENDING {
        return Refused(NotPending);
      }
      if c.approvals.Corrupted? {
        return Refused(ApprovalsCorrupted);
      }
      var approvals, seenPrincipals, seenApprovers := NormalizeApprovals(folding, c.approvals.entries);
      var entry := EntryOf(a);
      if Label(folding, entry) in seenApprovers {
        return Refused(ApproverSeen);
      }
      if a.actorId in seenPrincipals {
        return Refused(PrincipalSeen);
      }
      approvals := approvals + [entry];
      var counted := c.(approvals := Parsed(approvals), approvalsCount := |approvals|, updatedAt := a.now);
      store.changes := store.changes[a.changeId := counted];
      if |approvals| >= c.approvalsNeeded {
        var applied := ApplyChangeInner(c, a);
        if !applied {
          return Refused(ApplyFailed);
        }
        counted := counted.(status := APPLIED, appliedAt := Some(a.now));
      }
      r := Done(counted);
    }

    /** `apply_change_inner`: write the identity row, then flip the status. */
    method ApplyChangeInner(c: Change, a: Attempt) returns (ok: bool)
      requires a.changeId in store.changes
      modifies store
      ensures store.saved == old(store.saved)
      ensures var notes := AppliedNotes(old(store.notes), c, projectId, a);
              && ok == notes.Some?
              && (ok ==> store.notes == notes.value)
              && (ok ==> store.changes ==
                         old(store.changes)[a.changeId := Applied(old(store.changes)[a.changeId], a.now)])
    {
      hide Upsert;
      match c.changeType {
        case "create" =>
          store.notes := Upsert(store.notes, IdentityRow(a.newId, c, projectId, a));
        case "update" =>
          if c.targetId.None? || !HasIdentityRow(store.notes, c.targetId.value) {
            return false;
          }
          store.notes := Upsert(store.notes, IdentityRow(c.targetId.value, c, projectId, a));
        case "delete" =>
          if c.targetId.None? || !HasIdentityRow(store.notes, c.targetId.value) {
            return false;
          }
          store.notes := UpdateWhere(store.notes, (r: NoteRow) => r.id == c.targetId.value && r.layer == IDENTITY_LAYER,
                                     (r: NoteRow) => Retire(r));
        case _ =>
          return false;
      }
      store.changes := store.changes[a.changeId := Applied(store.changes[a.changeId], a.now)];
      ok := true;
    }
  }
}
