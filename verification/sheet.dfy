/**
 The leave sheet of app.py as an in-memory sequence of rows. Row 1 of the
 sheet (index 0 here) is the header; every later row is one leave request
 with the nine columns handle_message appends.
 */
module Sheet {
  import opened Wrappers

  /** The approval status written in column F. Only the first two are ever
      compared by the code; anything a person typed into the cell is `Other`. */
  datatype Status = PendingSupervisor | PendingHr | Approved | Rejected | Other(text: string)

  /** The cell text for a status. */
  function StatusText(s: Status): string {
    match s
    case PendingSupervisor => "pending_supervisor"
    case PendingHr => "pending_hr"
    case Approved => "approved"
    case Rejected => "rejected"
    case Other(t) => t
  }

  /** A status whose text is not one of the four names, or one of the four. */
  predicate Canonical(s: Status) {
    s.Other? ==> s.text !in {"pending_supervisor", "pending_hr", "approved", "rejected"}
  }

  /** Reads a status cell. Reading loses nothing: writing the result back
      gives the same text, and the result is the canonical reading. */
  function ParseStatus(text: string): (s: Status)
    ensures StatusText(s) == text
    ensures Canonical(s)
  {
    if text == "pending_supervisor" then PendingSupervisor
    else if text == "pending_hr" then PendingHr
    else if text == "approved" then Approved
    else if text == "rejected" then Rejected
    else Other(text)
  }

  /** Writing a canonical status and reading it back gives the same status. */
  lemma StatusRoundTrip(s: Status)
    requires Canonical(s)
    ensures ParseStatus(StatusText(s)) == s
  {
  }

  /** One request row, columns A to I: id, LINE user id, leave type, start
      date, end date, status, approver history, submission time, reason.
      An empty cell is the empty string. */
  datatype Row = Row(
    id: string,
    userId: string,
    leaveType: string,
    startDate: string,
    endDate: string,
    status: string,
    history: string,
    timestamp: string,
    reason: string)

  /** The cells of a row in column order, as handed to `append_row`. */
  function Cells(r: Row): (cells: seq<string>)
    ensures |cells| == 9
  {
    [r.id, r.userId, r.leaveType, r.startDate, r.endDate, r.status, r.history, r.timestamp, r.reason]
  }

  /** The 1-based sheet row number of the first row at or after index `j`
      whose id cell equals `id`. */
  function FindFrom(rows: seq<Row>, id: string, j: nat): (r: Option<nat>)
    ensures r.Some? ==> j < r.value <= |rows| && rows[r.value - 1].id == id
    ensures r.Some? ==> forall k | j <= k < r.value - 1 :: rows[k].id != id
    ensures r.None? <==> forall k | j <= k < |rows| :: rows[k].id != id
    decreases |rows| - j
  {
    if j >= |rows| then None
    else if rows[j].id == id then Some(j + 1)
    else FindFrom(rows, id, j + 1)
  }

  /** find_row_by_id: the sheet row number of the first data row whose id
      is `id`. The header is never compared, and the number is at least 2,
      so the caller's truthiness test on it only rejects "not found". */
  function FindRow(rows: seq<Row>, id: string): (r: Option<nat>)
    ensures r.Some? ==> 2 <= r.value <= |rows| && rows[r.value - 1].id == id
    ensures r.Some? ==> forall k | 1 <= k < r.value - 1 :: rows[k].id != id
    ensures r.None? <==> forall k | 1 <= k < |rows| :: rows[k].id != id
  {
    FindFrom(rows, id, 1)
  }

  /** The four values get_leave_details hands to notify_hr. */
  datatype Details = Details(startDate: string, endDate: string, leaveType: string, reason: string)

  /** get_leave_details. `row_values` drops the empty cells at the end of a
      row, so when the reason cell (column I, the last one) is empty,
      `row[8]` raises instead of giving a value. */
  function LeaveDetails(r: Row): (d: Option<Details>)
    ensures d.None? <==> Cells(r)[8] == ""
    ensures d.Some? ==> d.value == Details(Cells(r)[3], Cells(r)[4], Cells(r)[2], Cells(r)[8])
  {
    if r.reason == "" then None
    else Some(Details(r.startDate, r.endDate, r.leaveType, r.reason))
  }

  /** Every data row has a reason, so get_leave_details never raises on it. */
  predicate ReasonsPresent(rows: seq<Row>) {
    forall k | 1 <= k < |rows| :: rows[k].reason != ""
  }

  /** Two sheets with the same ids in the same places. */
  predicate SameIds(a: seq<Row>, b: seq<Row>) {
    |a| == |b| && forall k | 0 <= k < |a| :: a[k].id == b[k].id
  }

  lemma {:induction false} FindFromSameIds(a: seq<Row>, b: seq<Row>, id: string, j: nat)
    requires SameIds(a, b)
    ensures FindFrom(a, id, j) == FindFrom(b, id, j)
    decreases |a| - j
  {
    if j < |a| && a[j].id != id {
      assert b[j].id != id;
      FindFromSameIds(a, b, id, j + 1);
    } else if j < |a| {
      assert b[j].id == id;
    }
  }

  /** The lookup only reads the id column: rewriting other cells never
      changes which row an id finds. */
  lemma FindRowSameIds(a: seq<Row>, b: seq<Row>, id: string)
    requires SameIds(a, b)
    ensures FindRow(a, id) == FindRow(b, id)
  {
    FindFromSameIds(a, b, id, 1);
  }
}
