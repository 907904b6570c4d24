/** The `notes` table: rows in rowid order, with the statements that write them. */
module Notes {
  import opened Common
  import opened Text

  const IDENTITY_LAYER := "identity_schema"
  const EVENT_LAYER := "event_log"
  const FACT_LAYER := "verified_fact"
  const PROCEDURE_LAYER := "procedure_schema"

  /** What the vector columns decode to. */
  datatype StoredVector = Missing | Present(values: seq<real>) | Invalid

  datatype NoteRow = NoteRow(
    id: string,
    content: string,
    layer: string,
    category: Option<string>,
    room: Option<string>,
    projectId: Option<string>,
    source: Option<string>,
    confirmed: bool,
    isActive: bool,
    isHead: bool,
    evolutionState: Option<string>,
    topicKey: Option<string>,
    rootId: Option<string>,
    createdAt: Option<string>,
    vector: StoredVector,
    checkpointTask: Option<string>,
    metadata: string)
  {
    /** `COALESCE(evolution_state, 'active') = 'active'`. */
    predicate InActiveState() {
      evolutionState.GetOr("active") == "active"
    }
  }

  type Table = seq<NoteRow>

  predicate DistinctIds(t: Table) {
    forall i, j | 0 <= i < j < |t| :: t[i].id != t[j].id
  }

  /** Ids are generated UUIDs: unique and free of surrounding whitespace. */
  predicate ValidTable(t: Table) {
    && DistinctIds(t)
    && forall r <- t :: IsTrimmed(r.id) && r.id != ""
  }

  predicate HasId(t: Table, id: string) {
    exists r <- t :: r.id == id
  }

  /** `SELECT * FROM notes WHERE id = ?`. */
  function Find(t: Table, id: string): (r: Option<NoteRow>)
    ensures r.Some? ==> r.value in t && r.value.id == id
    ensures r.None? ==> !HasId(t, id)
  {
    if t == [] then None
    else if t[0].id == id then Some(t[0])
    else Find(t[1..], id)
  }

  lemma FindOwn(t: Table, row: NoteRow)
    requires DistinctIds(t) && row in t
    ensures Find(t, row.id) == Some(row)
  {
    var found := Find(t, row.id).value;
    var i :| 0 <= i < |t| && t[i] == row;
    var j :| 0 <= j < |t| && t[j] == found;
  }

  /** `INSERT ... ON CONFLICT(id) DO UPDATE`, the update half: which columns an existing row keeps. */
  function Merge(stored: NoteRow, row: NoteRow): NoteRow {
    row.(projectId := row.projectId.Or(stored.projectId),
         evolutionState := if row.evolutionState.GetOr("active") != "active" then row.evolutionState
                           else Some(stored.evolutionState.GetOr("active")),
         topicKey := row.topicKey.Or(stored.topicKey),
         rootId := row.rootId.Or(stored.rootId),
         room := row.room.Or(stored.room),
         source := row.source.Or(stored.source),
         createdAt := stored.createdAt,
         confirmed := stored.confirmed)
  }

  /** Rewrite every row for which `hit` holds: an `UPDATE ... WHERE`. */
  function UpdateWhere(t: Table, hit: NoteRow -> bool, f: NoteRow -> NoteRow): (r: Table)
    ensures |r| == |t|
    ensures forall i | 0 <= i < |t| :: r[i] == if hit(t[i]) then f(t[i]) else t[i]
  {
    seq(|t|, i requires 0 <= i < |t| => if hit(t[i]) then f(t[i]) else t[i])
  }

  /** `upsert_note`: a new row is its own lineage root unless one is given. */
  function Upsert(t: Table, row: NoteRow): Table {
    if HasId(t, row.id) then UpdateWhere(t, (r: NoteRow) => r.id == row.id, (r: NoteRow) => Merge(r, row))
    else t + [row.(rootId := row.rootId.Or(Some(row.id)), evolutionState := Some(row.evolutionState.GetOr("active")))]
  }

  function AsciiLower(s: string): string {
    seq(|s|, i requires 0 <= i < |s| => if 'A' <= s[i] <= 'Z' then s[i] - 'A' + 'a' else s[i])
  }

  /** `allows_strengthening(source, confirmed, true)`. */
  predicate TrustedRow(r: NoteRow) {
    r.confirmed || r.source.None? || AsciiLower(Trim(r.source.value)) in {"user", "checkpoint"}
  }

  /** `activation_source_is_trusted`: a missing row is not trusted. */
  predicate Trusted(t: Table, id: string) {
    var r := Find(t, id);
    r.Some? && TrustedRow(r.value)
  }
}
