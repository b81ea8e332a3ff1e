/**
 handle_postback of app.py: a button press carries `action:id`; the row
 with that id moves along pending_supervisor -> pending_hr -> approved, or
 to rejected, and the next party is told. Nothing checks who pressed the
 button, and `reject` is taken in every status.
 */
module Approval {
  import opened Wrappers
  import opened Text
  import opened Sheet

  /** The action half of the postback data. */
  datatype Action = Approve | Reject | OtherAction(name: string)

  function ActionText(a: Action): string {
    match a
    case Approve => "approve"
    case Reject => "reject"
    case OtherAction(n) => n
  }

  /** Reads the action text; reading loses nothing. */
  function ParseAction(text: string): (a: Action)
    ensures ActionText(a) == text
    ensures a.OtherAction? ==> text != "approve" && text != "reject"
  {
    if text == "approve" then Approve
    else if text == "reject" then Reject
    else OtherAction(text)
  }

  datatype Postback = Postback(action: Action, leaveId: string)

  /** Splits the postback data on ':'; anything but exactly two fields is
      ignored. The data parses exactly when it holds one ':', and then it is
      the action text, the ':' and the id. */
  function ParsePostback(data: string): (r: Option<Postback>)
    ensures r.Some? <==> multiset(data)[':'] == 1
    ensures r.Some? ==> data == ActionText(r.value.action) + ":" + r.value.leaveId
    ensures r.Some? ==> ':' !in r.value.leaveId
  {
    var parts := SplitOn(data, ':');
    if |parts| != 2 then None
    else
      assert Join(parts, ":") == parts[0] + ":" + Join(parts[1..], ":");
      Some(Postback(ParseAction(parts[0]), parts[1]))
  }

  /** The data a quick-reply button carries: `approve:<id>` or `reject:<id>`. */
  function ButtonData(a: Action, leaveId: string): string {
    ActionText(a) + ":" + leaveId
  }

  /** Every button notify_supervisor and notify_hr attach parses back to its
      own action and id, as long as the id holds no ':' (a UUID never does). */
  lemma ButtonRoundTrip(a: Action, leaveId: string)
    requires a == Approve || a == Reject
    requires ':' !in leaveId
    ensures ParsePostback(ButtonData(a, leaveId)) == Some(Postback(a, leaveId))
  {
    var text := ActionText(a);
    assert ':' !in text by {
      assert forall k | 0 <= k < |text| :: text[k] != ':';
    }
    SplitOnPair(text, leaveId, ':');
  }

  /** Who is told after a transition. */
  datatype Party = Hr | Employee

  /** Which line is added to the approver history. */
  datatype Entry = SupervisorApproved | HrApproved | Rejection

  datatype Move = Move(next: Status, entry: Entry, notify: Party)

  /** Position along the approval path; statuses off the path have none. */
  function Rank(s: Status): int {
    match s
    case PendingSupervisor => 0
    case PendingHr => 1
    case Approved => 2
    case _ => -1
  }

  predicate Terminal(s: Status) {
    s == Approved || s == Rejected
  }

  /** The transition table of handle_postback. An approval moves exactly one
      step along the path, from either pending status only; a rejection is
      taken from every status; HR is told exactly when the request now waits
      for HR, the employee exactly when it has reached a final status. */
  function Step(status: Status, action: Action): (r: Option<Move>)
    ensures r.None? <==> action.OtherAction? || (action == Approve && status != PendingSupervisor && status != PendingHr)
    ensures r.Some? && action == Approve ==> Rank(r.value.next) == Rank(status) + 1 >= 1
    ensures action == Reject ==> r.Some? && r.value.next == Rejected
    ensures r.Some? ==> (r.value.notify == Hr <==> r.value.next == PendingHr)
    ensures r.Some? ==> (r.value.notify == Employee <==> Terminal(r.value.next))
  {
    match action
    case Approve =>
      if status == PendingSupervisor then Some(Move(PendingHr, SupervisorApproved, Hr))
      else if status == PendingHr then Some(Move(Approved, HrApproved, Employee))
      else None
    case Reject => Some(Move(Rejected, Rejection, Employee))
    case OtherAction(_) => None
  }

  /** The history line for an entry; `timestamp` is the current time. The
      line ends with the time and "; ", and its first letter tells which
      entry it is. */
  function EntryText(e: Entry, timestamp: string): (t: string)
    ensures |t| > |timestamp| + 2 && t[|t| - |timestamp| - 2..] == timestamp + "; "
    ensures e == SupervisorApproved <==> t[0] == 'S'
    ensures e == HrApproved <==> t[0] == 'H'
    ensures e == Rejection <==> t[0] == 'R'
  {
    match e
    case SupervisorApproved => "Supervisor approved at " + timestamp + "; "
    case HrApproved => "HR approved at " + timestamp + "; "
    case Rejection => "Rejected at " + timestamp + "; "
  }

  /** What handle_postback pushes, if anything. `Fault` is the IndexError
      get_leave_details raises on a row without a reason, after the sheet
      was already written. */
  datatype Notice =
    | Silent
    | NotifyHr(leaveId: string, details: Details)
    | NotifyEmployee(userId: string, leaveId: string, outcome: Status)
    | Fault

  datatype PostbackResult = PostbackResult(rows: seq<Row>, notice: Notice)

  /** Applies a move to one row: new status, history extended. */
  function Advance(row: Row, m: Move, timestamp: string): (r: Row)
    ensures Canonical(m.next) ==> ParseStatus(r.status) == m.next
    ensures row.history < r.history
    ensures r.(status := row.status, history := row.history) == row
  {
    row.(status := StatusText(m.next), history := row.history + EntryText(m.entry, timestamp))
  }

  /** The notice after a move on `row` (already advanced): HR gets the
      details read back from the row, the employee the new status. */
  function NoticeFor(m: Move, row: Row, leaveId: string): (n: Notice)
    ensures n != Silent
    ensures n.Fault? <==> m.notify == Hr && row.reason == ""
    ensures n.NotifyHr? ==> n.leaveId == leaveId && LeaveDetails(row) == Some(n.details)
    ensures n.NotifyEmployee? <==> m.notify == Employee
    ensures n.NotifyEmployee? ==> n.userId == row.userId && n.leaveId == leaveId && n.outcome == m.next
  {
    match m.notify
    case Hr => (match LeaveDetails(row) case Some(d) => NotifyHr(leaveId, d) case None => Fault)
    case Employee => NotifyEmployee(row.userId, leaveId, m.next)
  }

  /** The sheet after a move on the row at index `i`: that row alone
      changes, in status and history only, and its history grows. */
  function ApplyAt(rows: seq<Row>, i: nat, m: Move, timestamp: string): (r: seq<Row>)
    requires i < |rows|
    ensures |r| == |rows| && r != rows
    ensures r[i] == Advance(rows[i], m, timestamp)
    ensures forall k | 0 <= k < |rows| && k != i :: r[k] == rows[k]
  {
    rows[i := Advance(rows[i], m, timestamp)]
  }

  /** Some data row carries the id. */
  predicate Carried(rows: seq<Row>, id: string) {
    exists k | 1 <= k < |rows| :: rows[k].id == id
  }

  /** Index `i` holds the first data row carrying the id. */
  predicate FirstCarrying(rows: seq<Row>, id: string, i: nat) {
    1 <= i < |rows| && rows[i].id == id && forall k | 1 <= k < i :: rows[k].id != id
  }

  /** The index of the row a postback addresses: the first data row
      carrying the id of well-formed postback data. */
  function Target(rows: seq<Row>, data: string): (t: Option<nat>)
    ensures t.Some? ==> 1 <= t.value < |rows|
    ensures t.Some? <==> ParsePostback(data).Some? && Carried(rows, ParsePostback(data).value.leaveId)
    ensures t.Some? ==> FirstCarrying(rows, ParsePostback(data).value.leaveId, t.value)
  {
    match ParsePostback(data)
    case None => None
    case Some(p) => Locate(rows, p.leaveId)
  }

  /** The index of the first data row carrying the id, from find_row_by_id's
      1-based row number. */
  function Locate(rows: seq<Row>, id: string): (t: Option<nat>)
    ensures t.Some? ==> 1 <= t.value < |rows|
    ensures t.Some? <==> Carried(rows, id)
    ensures t.Some? ==> FirstCarrying(rows, id, t.value)
  {
    match FindRow(rows, id)
    case None => None
    case Some(n) => Some(n - 1)
  }

  /** `b` is `a` with at most its status and history rewritten, and the
      history of `a` is a prefix of that of `b`. */
  predicate Rewritten(a: Row, b: Row) {
    a.(status := b.status, history := b.history) == b && a.history <= b.history
  }

  /** handle_postback; `timestamp` stands for the current time. Only the
      addressed row may change, only in its status and history, and its
      history only grows; the sheet changes exactly when a notice (or the
      fault) follows. */
  function HandlePostback(rows: seq<Row>, data: string, timestamp: string): (r: PostbackResult)
    ensures |r.rows| == |rows|
    ensures r.rows == rows <==> r.notice == Silent
    ensures forall k | 0 <= k < |rows| :: Rewritten(rows[k], r.rows[k])
    ensures forall k | 0 <= k < |rows| && r.rows[k] != rows[k] :: Target(rows, data) == Some(k)
  {
    match Target(rows, data)
    case None => PostbackResult(rows, Silent)
    case Some(i) => ActAt(rows, i, ParsePostback(data).value, timestamp)
  }

  /** handle_postback once the row at index `i` is found: the move its
      status admits for the action is applied, with its notice; when there
      is none, nothing changes. */
  function ActAt(rows: seq<Row>, i: nat, p: Postback, timestamp: string): (r: PostbackResult)
    requires i < |rows|
    ensures |r.rows| == |rows|
    ensures r.rows == rows <==> r.notice == Silent
    ensures forall k | 0 <= k < |rows| :: Rewritten(rows[k], r.rows[k])
    ensures forall k | 0 <= k < |rows| && k != i :: r.rows[k] == rows[k]
  {
    match Step(ParseStatus(rows[i].status), p.action)
    case None => PostbackResult(rows, Silent)
    case Some(m) =>
      var rows' := ApplyAt(rows, i, m, timestamp);
      PostbackResult(rows', NoticeFor(m, rows'[i], p.leaveId))
  }

  /** Data that does not split on ':' into exactly two fields changes
      nothing and tells no one. */
  lemma MalformedPostbackIgnored(rows: seq<Row>, data: string, timestamp: string)
    requires multiset(data)[':'] != 1
    ensures HandlePostback(rows, data, timestamp) == PostbackResult(rows, Silent)
  {
  }

  /** An id no data row carries changes nothing and tells no one. */
  lemma UnknownIdIgnored(rows: seq<Row>, data: string, timestamp: string)
    requires ParsePostback(data).Some?
    requires forall k | 1 <= k < |rows| :: rows[k].id != ParsePostback(data).value.leaveId
    ensures HandlePostback(rows, data, timestamp) == PostbackResult(rows, Silent)
  {
  }

  /** The row an `action:id` button addresses is the first data row with that id. */
  lemma ButtonTarget(rows: seq<Row>, a: Action, leaveId: string, n: nat)
    requires a == Approve || a == Reject
    requires ':' !in leaveId
    requires FindRow(rows, leaveId) == Some(n)
    ensures Target(rows, ButtonData(a, leaveId)) == Some(n - 1)
  {
    ButtonRoundTrip(a, leaveId);
    TargetOfParsed(rows, ButtonData(a, leaveId), Postback(a, leaveId), n);
  }

  lemma TargetOfParsed(rows: seq<Row>, data: string, p: Postback, n: nat)
    requires ParsePostback(data) == Some(p)
    requires FindRow(rows, p.leaveId) == Some(n)
    ensures Target(rows, data) == Some(n - 1)
  {
  }

  /** A postback whose addressed row admits a move applies that move. */
  lemma PostbackMoves(rows: seq<Row>, data: string, timestamp: string, i: nat, p: Postback, m: Move)
    requires Target(rows, data) == Some(i) && ParsePostback(data) == Some(p)
    requires Step(ParseStatus(rows[i].status), p.action) == Some(m)
    ensures var rows' := ApplyAt(rows, i, m, timestamp);
            HandlePostback(rows, data, timestamp) == PostbackResult(rows', NoticeFor(m, rows'[i], p.leaveId))
  {
  }

  /** A postback whose addressed row admits no move changes nothing. */
  lemma PostbackStays(rows: seq<Row>, data: string, timestamp: string, i: nat, p: Postback)
    requires Target(rows, data) == Some(i) && ParsePostback(data) == Some(p)
    requires Step(ParseStatus(rows[i].status), p.action).None?
    ensures HandlePostback(rows, data, timestamp) == PostbackResult(rows, Silent)
  {
  }

  /** A button press on a found row applies the move its status admits. */
  lemma ButtonMoves(rows: seq<Row>, a: Action, leaveId: string, n: nat, timestamp: string, m: Move)
    requires a == Approve || a == Reject
    requires ':' !in leaveId
    requires FindRow(rows, leaveId) == Some(n)
    requires Step(ParseStatus(rows[n - 1].status), a) == Some(m)
    ensures var row := Advance(rows[n - 1], m, timestamp);
            HandlePostback(rows, ButtonData(a, leaveId), timestamp) == PostbackResult(rows[n - 1 := row], NoticeFor(m, row, leaveId))
  {
    ButtonTarget(rows, a, leaveId, n);
    ButtonRoundTrip(a, leaveId);
    PostbackMoves(rows, ButtonData(a, leaveId), timestamp, n - 1, Postback(a, leaveId), m);
  }

  /** The supervisor's approval moves a pending_supervisor row to pending_hr,
      records it in the history and sends HR the request details. */
  lemma SupervisorApproval(rows: seq<Row>, leaveId: string, n: nat, timestamp: string)
    requires ':' !in leaveId
    requires FindRow(rows, leaveId) == Some(n)
    requires rows[n - 1].status == "pending_supervisor" && rows[n - 1].reason != ""
    ensures var row := rows[n - 1];
            HandlePostback(rows, ButtonData(Approve, leaveId), timestamp) == PostbackResult(
              rows[n - 1 := row.(status := "pending_hr", history := row.history + EntryText(SupervisorApproved, timestamp))],
              NotifyHr(leaveId, Details(row.startDate, row.endDate, row.leaveType, row.reason)))
  {
    var m := Move(PendingHr, SupervisorApproved, Hr);
    assert Step(ParseStatus(rows[n - 1].status), Approve) == Some(m);
    ButtonMoves(rows, Approve, leaveId, n, timestamp, m);
  }

  /** The supervisor's approval of a row without a reason still writes
      pending_hr and the history entry, but reading the details back then
      raises, so HR is never told. */
  lemma SupervisorApprovalWithoutReason(rows: seq<Row>, leaveId: string, n: nat, timestamp: string)
    requires ':' !in leaveId
    requires FindRow(rows, leaveId) == Some(n)
    requires rows[n - 1].status == "pending_supervisor" && rows[n - 1].reason == ""
    ensures var row := rows[n - 1];
            HandlePostback(rows, ButtonData(Approve, leaveId), timestamp) == PostbackResult(
              rows[n - 1 := row.(status := "pending_hr", history := row.history + EntryText(SupervisorApproved, timestamp))],
              Fault)
  {
    var m := Move(PendingHr, SupervisorApproved, Hr);
    assert Step(ParseStatus(rows[n - 1].status), Approve) == Some(m);
    ButtonMoves(rows, Approve, leaveId, n, timestamp, m);
  }

  /** HR's approval moves a pending_hr row to approved, records it and tells
      the employee who filed it. */
  lemma HrApproval(rows: seq<Row>, leaveId: string, n: nat, timestamp: string)
    requires ':' !in leaveId
    requires FindRow(rows, leaveId) == Some(n)
    requires rows[n - 1].status == "pending_hr"
    ensures var row := rows[n - 1];
            HandlePostback(rows, ButtonData(Approve, leaveId), timestamp) == PostbackResult(
              rows[n - 1 := row.(status := "approved", history := row.history + EntryText(HrApproved, timestamp))],
              NotifyEmployee(row.userId, leaveId, Approved))
  {
    var m := Move(Approved, HrApproved, Employee);
    assert Step(ParseStatus(rows[n - 1].status), Approve) == Some(m);
    ButtonMoves(rows, Approve, leaveId, n, timestamp, m);
  }

  /** An approval of a row in any other status changes nothing and tells no one. */
  lemma ApprovalOutsidePendingIgnored(rows: seq<Row>, leaveId: string, n: nat, timestamp: string)
    requires ':' !in leaveId
    requires FindRow(rows, leaveId) == Some(n)
    requires rows[n - 1].status != "pending_supervisor" && rows[n - 1].status != "pending_hr"
    ensures HandlePostback(rows, ButtonData(Approve, leaveId), timestamp) == PostbackResult(rows, Silent)
  {
    assert Step(ParseStatus(rows[n - 1].status), Approve).None?;
    var data := ButtonData(Approve, leaveId);
    assert Target(rows, data) == Some(n - 1) && ParsePostback(data) == Some(Postback(Approve, leaveId)) by {
      ButtonTarget(rows, Approve, leaveId, n);
      ButtonRoundTrip(Approve, leaveId);
    }
    PostbackStays(rows, data, timestamp, n - 1, Postback(Approve, leaveId));
  }

  /** A rejection is taken whatever the status, even on a row already
      approved or rejected: the row becomes rejected, the history records it
      and the employee is told. */
  lemma RejectionAlwaysTaken(rows: seq<Row>, leaveId: string, n: nat, timestamp: string)
    requires ':' !in leaveId
    requires FindRow(rows, leaveId) == Some(n)
    ensures var row := rows[n - 1];
            HandlePostback(rows, ButtonData(Reject, leaveId), timestamp) == PostbackResult(
              rows[n - 1 := row.(status := "rejected", history := row.history + EntryText(Rejection, timestamp))],
              NotifyEmployee(row.userId, leaveId, Rejected))
  {
    var m := Move(Rejected, Rejection, Employee);
    var row := rows[n - 1];
    assert Step(ParseStatus(row.status), Reject) == Some(m);
    var row' := Advance(row, m, timestamp);
    assert row' == row.(status := "rejected", history := row.history + EntryText(Rejection, timestamp));
    assert NoticeFor(m, row', leaveId) == NotifyEmployee(row.userId, leaveId, Rejected);
    ButtonMoves(rows, Reject, leaveId, n, timestamp, m);
  }

  /** Nothing guards against a repeated approval: the same `approve:id`
      delivered twice (a double tap or a re-delivered event) takes a
      pending_supervisor row all the way to approved without HR. */
  lemma {:induction false} RepeatedApprovalSkipsHr(rows: seq<Row>, leaveId: string, n: nat, t1: string, t2: string)
    requires ':' !in leaveId
    requires FindRow(rows, leaveId) == Some(n)
    requires rows[n - 1].status == "pending_supervisor" && rows[n - 1].reason != ""
    ensures var first := HandlePostback(rows, ButtonData(Approve, leaveId), t1);
            var second := HandlePostback(first.rows, ButtonData(Approve, leaveId), t2);
            second.rows[n - 1].status == "approved" && second.notice == NotifyEmployee(rows[n - 1].userId, leaveId, Approved)
  {
    var row := rows[n - 1];
    var rows1 := rows[n - 1 := row.(status := "pending_hr", history := row.history + EntryText(SupervisorApproved, t1))];
    assert HandlePostback(rows, ButtonData(Approve, leaveId), t1).rows == rows1 by {
      SupervisorApproval(rows, leaveId, n, t1);
    }
    assert FindRow(rows1, leaveId) == Some(n) by {
      assert SameIds(rows, rows1);
      FindRowSameIds(rows, rows1, leaveId);
    }
    HrApproval(rows1, leaveId, n, t2);
  }

  /** Every data row keeps a reason through a postback, since no postback
      touches the reason cell. */
  lemma PostbackKeepsReasons(rows: seq<Row>, data: string, timestamp: string)
    requires ReasonsPresent(rows)
    ensures ReasonsPresent(HandlePostback(rows, data, timestamp).rows)
  {
    var r := HandlePostback(rows, data, timestamp);
    forall k | 1 <= k < |rows|
      ensures r.rows[k].reason != ""
    {
      assert Rewritten(rows[k], r.rows[k]);
    }
  }

  /** On a sheet whose data rows all have a reason, get_leave_details never
      raises: a postback ends silent or with a notice, never with the fault. */
  lemma NoFaultWithReasons(rows: seq<Row>, data: string, timestamp: string)
    requires ReasonsPresent(rows)
    ensures HandlePostback(rows, data, timestamp).notice != Fault
  {
    match Target(rows, data)
    case None =>
    case Some(i) =>
      var p := ParsePostback(data).value;
      match Step(ParseStatus(rows[i].status), p.action)
      case None =>
      case Some(m) =>
        PostbackMoves(rows, data, timestamp, i, p, m);
        assert ApplyAt(rows, i, m, timestamp)[i].reason == rows[i].reason != "";
  }
}
