/**
 handleApprove of server.js: the supervisor's decision on one row of the
 log sheet. The postback data `action=row` names a 1-based position among
 the data rows; the row is decided only while its supervisor field still
 reads 待簽 ("awaiting signature"), so a second decision is a no-op.
 */
module Signoff {
  import opened Wrappers
  import opened Text

  /** Supervisor field before any decision ("awaiting signature"). */
  const Unsigned: string := "待簽"
  /** Supervisor field and decision after an approval ("approved"). */
  const Granted: string := "核准"
  /** Supervisor field, decision and status after a rejection ("rejected"). */
  const Refused: string := "駁回"
  /** Overall status after an approval ("in progress", now with HR). */
  const InProgress: string := "處理中"

  /** One data row of the log sheet. Only the supervisor field (主管簽核) and
      the status field (狀態) are named; the handler does not read the rest. */
  datatype LogRow = LogRow(signoff: string, status: string, others: seq<string>)

  /** `const [action, rowStr] = data.split("=")`: the first field and, when
      there is one, the second; further fields are dropped. */
  datatype ApproveData = ApproveData(action: string, rowText: Option<string>)

  function ParseApproveData(data: string): (d: ApproveData)
    ensures '=' !in d.action
    ensures d.rowText.None? <==> '=' !in data
    ensures d.rowText.None? ==> d.action == data
    ensures d.rowText.Some? ==> '=' !in d.rowText.value && d.action + "=" + d.rowText.value <= data
    ensures d.rowText.Some? ==> var k := |d.action| + 1 + |d.rowText.value|; k == |data| || data[k] == '='
  {
    var parts := SplitOn(data, '=');
    if |parts| >= 2 then
      FirstTwoFields(data, '=');
      ApproveData(parts[0], Some(parts[1]))
    else
      ApproveData(parts[0], None)
  }

  /** `Number(rowStr)` for a string of decimal digits. A missing field gives
      NaN, and so does every other text here. */
  function RowNumber(t: Option<string>): (n: Option<nat>)
    ensures n.Some? <==> t.Some? && IsDigits(t.value)
    ensures n.Some? ==> n.value == DigitsValue(t.value)
  {
    match t
    case Some(s) => if IsDigits(s) then Some(DigitsValue(s)) else None
    case None => None
  }

  /** The index `rows[row - 1]` reads a row at, if it reads one at all. */
  function TargetIndex(rows: seq<LogRow>, data: string): (i: Option<nat>)
    ensures i.Some? ==> i.value < |rows|
  {
    match RowNumber(ParseApproveData(data).rowText)
    case Some(n) => if 1 <= n <= |rows| then Some(n - 1) else None
    case None => None
  }

  /** `action === "approve" ? "核准" : "駁回"`. */
  function Decision(action: string): (d: string)
    ensures d == Granted <==> action == "approve"
    ensures d == Granted || d == Refused
    ensures d != Unsigned
  {
    if action == "approve" then Granted else Refused
  }

  /** `result === "核准" ? "處理中" : "駁回"`. */
  function StatusAfter(decision: string): (s: string)
    ensures s == InProgress <==> decision == Granted
    ensures s != InProgress ==> s == Refused
  {
    if decision == Granted then InProgress else Refused
  }

  /** The text reply to the supervisor. */
  datatype Reply = AlreadyProcessed | ApprovedReply | RejectedReply

  /** Who is pushed to after a decision, with the 1-based row number passed along. */
  datatype Notice = NoNotice | RenderToHr(row: nat) | NotifyEmployee(row: nat)

  /** `Crash`: no row at `rows[row - 1]`, so reading its field throws before
      anything is written or replied. */
  datatype Outcome = Crash | Done(rows: seq<LogRow>, reply: Reply, notice: Notice)

  /** handleApprove. It throws exactly when the data names no row. Otherwise
      only the addressed row may change, only in its two named fields; it
      changes exactly when it is decided, and a decided row no longer reads
      待簽, so it cannot be decided again. */
  function HandleApprove(rows: seq<LogRow>, data: string): (o: Outcome)
    ensures o.Crash? <==> TargetIndex(rows, data).None?
    ensures o.Done? ==> |o.rows| == |rows|
    ensures o.Done? ==> forall k | 0 <= k < |rows| && Some(k) != TargetIndex(rows, data) :: o.rows[k] == rows[k]
    ensures o.Done? ==> forall k | 0 <= k < |rows| :: o.rows[k].others == rows[k].others
    ensures o.Done? ==> (o.rows == rows <==> o.reply == AlreadyProcessed)
    ensures o.Done? ==> (o.reply == AlreadyProcessed <==> o.notice == NoNotice)
    ensures o.Done? ==> o.rows[TargetIndex(rows, data).value].signoff != Unsigned
  {
    match TargetIndex(rows, data)
    case None => Crash
    case Some(i) => DecideAt(rows, i, ParseApproveData(data).action)
  }

  /** The handler once the row at index `i` is found: a decided row is left
      alone; an undecided one alone changes, in its two named fields, and
      is then decided, with a reply and a notice. */
  function DecideAt(rows: seq<LogRow>, i: nat, action: string): (o: Outcome)
    requires i < |rows|
    ensures o.Done? && |o.rows| == |rows|
    ensures forall k | 0 <= k < |rows| && k != i :: o.rows[k] == rows[k]
    ensures o.rows[i].others == rows[i].others
    ensures o.rows == rows <==> o.reply == AlreadyProcessed
    ensures o.reply == AlreadyProcessed <==> o.notice == NoNotice
    ensures o.reply == AlreadyProcessed <==> rows[i].signoff != Unsigned
    ensures o.rows[i].signoff != Unsigned
  {
    var row := rows[i];
    if row.signoff != Unsigned then
      Done(rows, AlreadyProcessed, NoNotice)
    else
      var result := Decision(action);
      var rows' := rows[i := row.(signoff := result, status := StatusAfter(result))];
      assert rows'[i] != rows[i];
      if result == Granted then Done(rows', ApprovedReply, RenderToHr(i + 1))
      else Done(rows', RejectedReply, NotifyEmployee(i + 1))
  }

  /** A row whose supervisor field is no longer 待簽 is left alone: the reply
      is 已處理過 ("already processed") and no one is told. */
  lemma DecidedRowUntouched(rows: seq<LogRow>, data: string, i: nat)
    requires TargetIndex(rows, data) == Some(i)
    requires rows[i].signoff != Unsigned
    ensures HandleApprove(rows, data) == Done(rows, AlreadyProcessed, NoNotice)
  {
  }

  /** On an undecided row, `approve` writes 核准 and anything else 駁回; the
      status becomes 處理中 exactly on approval and 駁回 otherwise; HR is
      told exactly on approval and the employee exactly on rejection. */
  lemma DecisionOnPendingRow(rows: seq<LogRow>, data: string, i: nat)
    requires TargetIndex(rows, data) == Some(i)
    requires rows[i].signoff == Unsigned
    ensures var o := HandleApprove(rows, data);
            var approve := ParseApproveData(data).action == "approve";
            && o.Done?
            && o.rows[i].signoff == (if approve then Granted else Refused)
            && (o.rows[i].status == InProgress <==> o.rows[i].signoff == Granted)
            && (o.rows[i].status == Refused <==> o.rows[i].signoff == Refused)
            && (o.notice == RenderToHr(i + 1) <==> approve)
            && (o.notice == NotifyEmployee(i + 1) <==> !approve)
            && (o.reply == ApprovedReply <==> approve)
  {
  }

  /** A second postback for a row already decided, with the same data or any
      other, changes nothing and notifies no one. */
  lemma SecondDecisionIgnored(rows: seq<LogRow>, data: string, again: string)
    requires HandleApprove(rows, data).Done?
    requires TargetIndex(HandleApprove(rows, data).rows, again) == TargetIndex(rows, data)
    ensures var once := HandleApprove(rows, data).rows;
            HandleApprove(once, again) == Done(once, AlreadyProcessed, NoNotice)
  {
    var once := HandleApprove(rows, data).rows;
    DecidedRowUntouched(once, again, TargetIndex(rows, data).value);
  }

  /** Handling the same decision twice leaves the sheet as handling it once. */
  lemma Idempotent(rows: seq<LogRow>, data: string)
    requires HandleApprove(rows, data).Done?
    ensures var once := HandleApprove(rows, data).rows;
            HandleApprove(once, data) == Done(once, AlreadyProcessed, NoNotice)
  {
    var once := HandleApprove(rows, data).rows;
    assert TargetIndex(once, data) == TargetIndex(rows, data);
    SecondDecisionIgnored(rows, data, data);
  }

  /** The data `action=<n>`, with `n` written in decimal, addresses row `n`
      of the sheet, that is `rows[n - 1]`, and nothing if `n` is out of range. */
  lemma RowDataAddressesRow(rows: seq<LogRow>, action: string, n: nat)
    requires '=' !in action
    ensures TargetIndex(rows, action + "=" + DigitsOf(n)) == if 1 <= n <= |rows| then Some(n - 1) else None
    ensures ParseApproveData(action + "=" + DigitsOf(n)).action == action
  {
    var digits := DigitsOf(n);
    assert ParseApproveData(action + "=" + digits) == ApproveData(action, Some(digits)) by {
      ParseOfPair(action, digits);
    }
    assert RowNumber(Some(digits)) == Some(n);
  }

  /** The data `action=<digits>`, leading zeros allowed, addresses the row
      the digits' decimal value names, and nothing if it is out of range. */
  lemma RowFieldAddressesRow(rows: seq<LogRow>, action: string, digits: string)
    requires '=' !in action && IsDigits(digits)
    ensures RowNumber(Some(digits)).Some?
    ensures var n := RowNumber(Some(digits)).value;
            TargetIndex(rows, action + "=" + digits) == if 1 <= n <= |rows| then Some(n - 1) else None
  {
    ParseOfPair(action, digits);
    TargetOfNumber(rows, action + "=" + digits, RowNumber(Some(digits)).value);
  }

  /** The data's row number `n` addresses `rows[n - 1]` when it is in range. */
  lemma TargetOfNumber(rows: seq<LogRow>, data: string, n: nat)
    requires RowNumber(ParseApproveData(data).rowText) == Some(n)
    ensures TargetIndex(rows, data) == if 1 <= n <= |rows| then Some(n - 1) else None
  {
  }

  /** `action=text` with neither side holding `=` reads back as its two sides. */
  lemma ParseOfPair(action: string, text: string)
    requires '=' !in action && IsDigits(text)
    ensures ParseApproveData(action + "=" + text) == ApproveData(action, Some(text))
  {
    assert '=' !in text by {
      assert forall k | 0 <= k < |text| :: IsDigit(text[k]);
    }
    SplitOnPair(action, text, '=');
  }
}
