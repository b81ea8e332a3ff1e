/**
 How the two handlers of app.py compose: a submitted request is found by
 its id, its supervisor button advances it, and the sheet keeps the shape
 the handlers rely on.
 */
module Workflow {
  import opened Wrappers
  import opened Text
  import opened Sheet
  import opened Request
  import opened Approval

  /** A freshly submitted request is found by its id in the row just
      appended, provided the sheet has its header and the id is new. */
  lemma SubmittedIsFound(rows: seq<Row>, text: string, userId: string, leaveId: string, timestamp: string)
    requires |rows| >= 1
    requires forall k | 1 <= k < |rows| :: rows[k].id != leaveId
    requires HandleMessage(rows, text, userId, leaveId, timestamp).outcome.Submitted?
    ensures FindRow(HandleMessage(rows, text, userId, leaveId, timestamp).rows, leaveId) == Some(|rows| + 1)
  {
    var rows' := HandleMessage(rows, text, userId, leaveId, timestamp).rows;
    assert rows'[|rows|].id == leaveId;
    assert forall k | 1 <= k < |rows| :: rows'[k] == rows[k];
  }

  /** On a sheet without even a header, the first request lands in row 1,
      which the lookup treats as the header: it is never found, so every
      button for it does nothing. */
  lemma FirstRowOfEmptySheetLost(text: string, userId: string, leaveId: string, timestamp: string, data: string, later: string)
    requires HandleMessage([], text, userId, leaveId, timestamp).outcome.Submitted?
    requires ParsePostback(data).Some? && ParsePostback(data).value.leaveId == leaveId
    ensures var rows := HandleMessage([], text, userId, leaveId, timestamp).rows;
            |rows| == 1 && rows[0].id == leaveId
            && FindRow(rows, leaveId).None?
            && HandlePostback(rows, data, later) == PostbackResult(rows, Silent)
  {
    var rows := HandleMessage([], text, userId, leaveId, timestamp).rows;
    UnknownIdIgnored(rows, data, later);
  }

  /** Submission followed by the supervisor's approve button: the new row
      moves to pending_hr and HR receives exactly the fields the employee
      submitted. */
  lemma SubmitThenSupervisorApproves(
    rows: seq<Row>, text: string, userId: string, leaveId: string, t1: string, t2: string)
    requires |rows| >= 1 && ':' !in leaveId
    requires forall k | 1 <= k < |rows| :: rows[k].id != leaveId
    requires HandleMessage(rows, text, userId, leaveId, t1).outcome.Submitted?
    ensures var sent := HandleMessage(rows, text, userId, leaveId, t1);
            var req := sent.outcome.req;
            var after := HandlePostback(sent.rows, ButtonData(Approve, leaveId), t2);
            && after.rows[|rows|].status == "pending_hr"
            && after.rows[..|rows|] == rows
            && after.notice == NotifyHr(leaveId, Details(req.startDate, req.endDate, req.leaveType, req.reason))
  {
    var sent := HandleMessage(rows, text, userId, leaveId, t1);
    SubmittedIsFound(rows, text, userId, leaveId, t1);
    SupervisorApproval(sent.rows, leaveId, |rows| + 1, t2);
  }

  /** Every data row a request line creates has a reason, and postbacks
      never clear one, so get_leave_details cannot raise on a sheet built
      by the handlers. */
  lemma MessageKeepsReasons(rows: seq<Row>, text: string, userId: string, leaveId: string, timestamp: string)
    requires ReasonsPresent(rows)
    ensures ReasonsPresent(HandleMessage(rows, text, userId, leaveId, timestamp).rows)
  {
    var r := HandleMessage(rows, text, userId, leaveId, timestamp);
    assert forall k | 1 <= k < |rows| :: r.rows[k] == rows[k];
  }
}
