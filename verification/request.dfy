/**
 handle_message of app.py: a text message starting with the keyword 請假 is
 split into whitespace-separated tokens and, when there are enough of them,
 becomes a new row in the leave sheet waiting for the supervisor.
 */
module Request {
  import opened Wrappers
  import opened Text
  import opened Sheet

  /** The keyword a request line starts with ("ask for leave"). */
  const Keyword: string := "請假"

  /** The reason written when the line carries none ("none"). */
  const NoReason: string := "無"

  /** The fewest tokens a request line needs: keyword, start, separator, end, type. */
  const MinTokens: nat := 5

  /** The fields a request line supplies. */
  datatype LeaveRequest = LeaveRequest(startDate: string, endDate: string, leaveType: string, reason: string)

  /** Picks the request fields out of the tokens by position: start date is
      token 1, end date token 3, leave type token 4; token 0 (the keyword)
      and token 2 (the separator 到) are not looked at. The reason is the
      remaining tokens joined by single spaces, or 無 when there are none. */
  function ParseRequest(parts: seq<string>): (r: Option<LeaveRequest>)
    ensures r.Some? <==> |parts| >= MinTokens
    ensures r.Some? ==> r.value.startDate == parts[1] && r.value.endDate == parts[3] && r.value.leaveType == parts[4]
    ensures r.Some? && |parts| == MinTokens ==> r.value.reason == NoReason
  {
    if |parts| < MinTokens then None
    else
      var reason := if |parts| > MinTokens then Join(parts[MinTokens..], " ") else NoReason;
      Some(LeaveRequest(parts[1], parts[3], parts[4], reason))
  }

  /** The row appended for a request: new id in column A, the sender in
      column B, status pending_supervisor and an empty approver history. */
  function NewRow(leaveId: string, userId: string, req: LeaveRequest, timestamp: string): (r: Row)
    ensures Cells(r)[0] == leaveId && Cells(r)[1] == userId
    ensures ParseStatus(r.status) == PendingSupervisor && r.history == ""
    ensures req.reason != "" ==> LeaveDetails(r) == Some(Details(req.startDate, req.endDate, req.leaveType, req.reason))
  {
    Row(leaveId, userId, req.leaveType, req.startDate, req.endDate, "pending_supervisor", "", timestamp, req.reason)
  }

  /** What the sender hears back. */
  datatype MessageOutcome =
    | NotARequest                                       // no keyword: no reply at all
    | FormatError                                       // the usage hint is sent back
    | Submitted(leaveId: string, req: LeaveRequest)     // the id is sent back, the supervisor is asked

  datatype MessageResult = MessageResult(rows: seq<Row>, outcome: MessageOutcome)

  /** handle_message. The message is trimmed, must start with the keyword
      and is split on whitespace; `leaveId` and `timestamp` stand for the
      fresh UUID and the current time. A keyword line with fewer than five
      tokens gets the format error. Only a submission changes the sheet, and
      it only appends. */
  function HandleMessage(rows: seq<Row>, text: string, userId: string, leaveId: string, timestamp: string): (r: MessageResult)
    ensures r.outcome.NotARequest? <==> !StartsWith(Strip(text), Keyword)
    ensures r.outcome.Submitted? <==> StartsWith(Strip(text), Keyword) && |Split(Strip(text))| >= MinTokens
    ensures r.outcome.Submitted? ==> ParseRequest(Split(Strip(text))) == Some(r.outcome.req)
    ensures rows <= r.rows
    ensures r.outcome.Submitted? <==> |r.rows| == |rows| + 1
    ensures !r.outcome.Submitted? ==> r.rows == rows
    ensures r.outcome.Submitted? ==> r.rows[|rows|] == NewRow(leaveId, userId, r.outcome.req, timestamp)
    ensures r.outcome.Submitted? ==> r.outcome.leaveId == leaveId && r.outcome.req.reason != ""
  {
    var line := Strip(text);
    if !StartsWith(line, Keyword) then MessageResult(rows, NotARequest)
    else
      match ParseRequest(Split(line))
      case None => MessageResult(rows, FormatError)
      case Some(req) =>
        ReasonNonEmpty(Split(line));
        MessageResult(rows + [NewRow(leaveId, userId, req, timestamp)], Submitted(leaveId, req))
  }

  /** A parsed reason is never empty: either 無 or at least one word. */
  lemma ReasonNonEmpty(parts: seq<string>)
    requires AllWords(parts)
    ensures ParseRequest(parts).Some? ==> ParseRequest(parts).value.reason != ""
  {
    if |parts| > MinTokens {
      JoinEnds(parts[MinTokens..]);
    }
  }

  /** A keyword line with fewer than five tokens is answered with the format
      error and adds no row. */
  lemma ShortLineRejected(rows: seq<Row>, text: string, userId: string, leaveId: string, timestamp: string)
    requires StartsWith(Strip(text), Keyword)
    requires |Split(Strip(text))| < MinTokens
    ensures HandleMessage(rows, text, userId, leaveId, timestamp) == MessageResult(rows, FormatError)
  {
  }

  /** The separator token is ignored: whatever stands in position 2, the
      request is the same. */
  lemma SeparatorIgnored(parts: seq<string>, sep: string)
    requires |parts| >= MinTokens
    ensures ParseRequest(parts[2 := sep]) == ParseRequest(parts)
  {
    assert parts[2 := sep][MinTokens..] == parts[MinTokens..];
  }

  /** The reason keeps every word after the leave type: splitting it again
      gives back tokens 5 onwards, and a five-token line gets 無. */
  lemma ReasonKeepsWords(parts: seq<string>)
    requires AllWords(parts) && |parts| >= MinTokens
    ensures |parts| == MinTokens ==> ParseRequest(parts).value.reason == NoReason
    ensures |parts| > MinTokens ==> Split(ParseRequest(parts).value.reason) == parts[MinTokens..]
  {
    if |parts| > MinTokens {
      SplitOfJoin(parts[MinTokens..]);
    }
  }

  /** The request line a user types for the given fields. */
  function RequestLine(startDate: string, sep: string, endDate: string, leaveType: string, words: seq<string>): string {
    Join([Keyword, startDate, sep, endDate, leaveType] + words, " ")
  }

  /** Typing a request line and handling it stores exactly the typed fields:
      the new row holds the start date, end date and type as typed, and the
      reason words joined by spaces (無 when there are none). */
  lemma {:induction false} RequestLineRoundTrip(
    rows: seq<Row>, startDate: string, sep: string, endDate: string, leaveType: string,
    words: seq<string>, userId: string, leaveId: string, timestamp: string)
    requires IsWord(startDate) && IsWord(sep) && IsWord(endDate) && IsWord(leaveType) && AllWords(words)
    ensures var req := LeaveRequest(startDate, endDate, leaveType, if words == [] then NoReason else Join(words, " "));
            HandleMessage(rows, RequestLine(startDate, sep, endDate, leaveType, words), userId, leaveId, timestamp)
            == MessageResult(rows + [NewRow(leaveId, userId, req, timestamp)], Submitted(leaveId, req))
  {
    var parts := [Keyword, startDate, sep, endDate, leaveType] + words;
    var line := Join(parts, " ");
    assert IsWord(Keyword);
    assert AllWords(parts);
    JoinEnds(parts);
    StripTrimmed(line);
    SplitOfJoin(parts);
    assert parts[MinTokens..] == words;
  }
}
