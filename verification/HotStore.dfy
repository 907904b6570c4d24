/** The hot database: two tables and one transaction. */
module HotStore {
  import opened Common
  import opened Notes

  datatype Approval = Approval(approver: string, actorId: Option<string>, comment: Option<string>, approvedAt: string)

  /** The approvals column: JSON that may fail to parse. */
  datatype Approvals = Corrupted | Parsed(entries: seq<Approval>)

  datatype Change = Change(
    changeType: string,
    content: string,
    reason: string,
    targetId: Option<string>,
    category: Option<string>,
    status: string,
    approvalsCount: nat,
    approvalsNeeded: int,
    approvals: Approvals,
    proposer: string,
    createdAt: string,
    updatedAt: string,
    appliedAt: Option<string>)

  const PENDING := "pending"
  const APPLIED := "applied"

  datatype HotState = HotState(notes: Table, changes: map<string, Change>)

  class Store {
    var notes: Table
    var changes: map<string, Change>
    var saved: Option<HotState>

    constructor ()
      ensures State() == HotState([], map[]) && saved.None?
    {
      notes, changes, saved := [], map[], None;
    }

    function State(): HotState
      reads this
    {
      HotState(notes, changes)
    }

    /** `BEGIN IMMEDIATE`. */
    method Begin()
      modifies this
      ensures saved == Some(old(State())) && State() == old(State())
    {
      saved := Some(HotState(notes, changes));
    }

    method Commit()
      modifies this
      ensures saved.None? && State() == old(State())
    {
      saved := None;
    }

    method Rollback()
      requires saved.Some?
      modifies this
      ensures saved.None? && State() == old(saved).value
    {
      notes, changes := saved.value.notes, saved.value.changes;
      saved := None;
    }
  }
}
