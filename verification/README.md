# Leave-request bot: request parsing and approval decisions

This project models the decision logic of a LINE bot that files leave
requests in a Google Sheet and routes them to a supervisor and then to HR.
The sheet calls, the chat API, the clock and the UUID generator are left out.
What is modelled is what the handlers decide. There are two variants of the
workflow.

- **app.py** (modules `Text`, `Sheet`, `Request`, `Approval`, `Workflow`).
  `handle_message` trims a chat line. It accepts the line when it starts with
  請假 and splits it on whitespace. With at least five tokens it appends a row
  with status `pending_supervisor`. `handle_postback` reads `action:id`, finds
  the first data row with that id (`find_row_by_id`), and applies the
  transition table: `pending_supervisor → pending_hr → approved` on
  `approve`, and `rejected` on `reject` from any status. It extends the
  approver history and tells HR or the employee. The sheet is a `seq<Row>`
  whose index 0 is the header row. A status cell is a string read through
  `ParseStatus` into a `Status`.
- **server.js** (module `Signoff`). `handleApprove` reads `action=row` and
  addresses `rows[row - 1]`. It refuses to act unless the supervisor field
  still reads 待簽. It writes 核准 or 駁回, sets the status to 處理中 or 駁回,
  and tells HR or the employee.

Inputs the program takes from its environment are parameters. These are the
new id (`leaveId`), the time (`timestamp`), and the sender's LINE id
(`userId`). A notification is an output value (`Notice`). Only its recipient
and the data it carries are kept.

Facts about the code that the model keeps:
- app.py checks neither who pressed a button nor whether the request waits
  for that person.
- `reject` is taken in every status, including `approved` and `rejected`.
- app.py ignores a repeated HR `approve`, because `approve` on `approved`
  matches no branch (`ApprovalOutsidePendingIgnored`).
- app.py does not guard a repeated `reject`: it is applied again and tells
  the employee again (`RejectionAlwaysTaken`).
- Nor does app.py guard a second supervisor `approve`. The buttons sent to
  HR carry the same data as the supervisor's, so the second one is taken as
  HR's and the row reaches `approved` without HR (`RepeatedApprovalSkipsHr`).
- server.js refuses any decision once the supervisor field no longer reads
  待簽 (`SecondDecisionIgnored`).

## Model

| member | source | states |
|---|---|---|
| Text.Strip | app.py:45 | The result is the input minus its leading and trailing whitespace, using Python's whitespace set. |
| Text.Split | app.py:48 | Every token `str.split()` yields is non-empty and has no whitespace. |
| Text.SplitOfSpaced | app.py:48 | Any string made of words separated by non-empty whitespace runs, with optional whitespace at either end, splits into exactly those words, in order. |
| Text.SplitOfJoin | app.py:56 | Joining whitespace-free words with single spaces and splitting again gives the words back. |
| Text.SplitOn | app.py:75 | Splitting on one character keeps empty fields. There is one field more than there are separators, no field holds the separator, and joining the fields on it rebuilds the input. |
| Text.SplitOnPair | app.py:75-78 | `a:b` splits into exactly `[a, b]` when neither side contains `:`. |
| Text.DigitsOf | server.js:3 | The decimal spelling of `n` is a digit string whose value is `n`. It has no leading zero unless it is `0`. |
| Request.ParseRequest | app.py:48-56 | A token list is a request exactly when it has at least five tokens. The start date is token 1, the end date token 3 and the type token 4. With exactly five tokens the reason is 無. |
| Request.ShortLineRejected | app.py:48-51 | A 請假 line with fewer than five tokens gets the format error and appends no row. |
| Request.SeparatorIgnored | app.py:53-55 | Token 2 (the 到 separator) does not affect the parsed request. |
| Request.ReasonKeepsWords | app.py:56 | With exactly five tokens the reason is 無. With more, splitting the reason again gives back tokens 5 onwards. |
| Request.ReasonNonEmpty | app.py:56 | A parsed reason is never empty. |
| Request.NewRow | app.py:63 | A new row has the id in column 1 and the user id in column 2. Its status reads as pending_supervisor and its history is empty. The details read back from it are the request's start, end, type and reason. |
| Request.HandleMessage | app.py:44-64 | The outcome is "not a request" exactly when the trimmed line does not start with 請假. It is a submission exactly when the line starts with 請假 and has at least five tokens; the request is then the parse of those tokens. The sheet only grows, by exactly one row, and only on a submission. That row is the new pending row for the sender, with the fresh id and a non-empty reason. |
| Request.RequestLineRoundTrip | app.py:45-64 | Handling a typed line `請假 start sep end type words…` appends exactly those fields. The reason is the words joined by spaces, or 無 when there are none. |
| Sheet.ParseStatus | app.py:85-98 | Reading a status cell loses nothing: the status writes back to the same text, and the reading is canonical. |
| Sheet.FindRow | app.py:136-141 | The result is the 1-based row number, at least 2, of the first data row after the header whose id matches. It is `None` exactly when no data row matches. |
| Sheet.LeaveDetails | app.py:143-145 | The details are cells 4, 5, 3 and 9 of the row (start, end, type, reason). There are none, and the read faults, exactly when the reason cell is empty, since `row_values` drops empty trailing cells. |
| Sheet.FindRowSameIds | app.py:136-141 | The lookup depends only on the id column. |
| Approval.ParseAction | app.py:89-107 | Reading the action text loses nothing. Only `approve` and `reject` are recognised. |
| Approval.ParsePostback | app.py:74-78 | Postback data parses exactly when it holds one `:`. It is then the action text, `:`, and the id. |
| Approval.ButtonRoundTrip | app.py:121-122 | The `approve:id` / `reject:id` button data parses back to its own action and id when the id has no `:`. |
| Approval.ButtonTarget | app.py:78-83 | A button addresses the first data row carrying its id. |
| Approval.Step | app.py:89-114 | Approval moves exactly one step along pending_supervisor, pending_hr, approved, and only from the two pending statuses. Rejection is taken from every status. HR is told exactly when the new status is pending_hr. The employee is told exactly when the new status is final. Any other action does nothing. |
| Approval.EntryText | app.py:92-109 | A history entry ends with the time followed by `; `. Its first letter tells which of the three entries it is. |
| Approval.Advance | app.py:92-111 | A move rewrites only the status and the history, and the old history is a proper prefix of the new one. |
| Approval.NoticeFor | app.py:96-114 | A move always tells someone. When HR is to be told, the notice carries the details read back from the row, or is the fault exactly when the row has no reason. When the employee is to be told, the notice goes to the row's user with the new status. |
| Approval.Locate | app.py:136-141 | The index is defined exactly when some data row carries the id. It then points at the first such row, after the header. |
| Approval.Target | app.py:74-83 | A postback addresses a row exactly when its data parses and some data row carries its id. The row is then the first data row with that id. |
| Approval.ActAt | app.py:85-114 | On a found row, only that row may change, only in status and history, and the history only grows. The sheet changes exactly when a notice or the fault follows. |
| Approval.HandlePostback | app.py:73-114 | The sheet keeps its length. Only the addressed row may change, only in status and history, and histories only grow. The sheet changes exactly when someone is told or the details lookup faults. |
| Approval.MalformedPostbackIgnored | app.py:75-77 | Data without exactly one `:` changes nothing and tells no one. |
| Approval.UnknownIdIgnored | app.py:81-83 | An id no data row carries changes nothing and tells no one. |
| Approval.SupervisorApproval | app.py:89-97 | `approve` on a pending_supervisor row whose reason is non-empty writes pending_hr and appends the supervisor entry. HR receives the row's start, end, type and reason. |
| Approval.SupervisorApprovalWithoutReason | app.py:89-97 | `approve` on a pending_supervisor row with an empty reason still writes pending_hr and the supervisor entry. The details read then faults, so HR is never told. |
| Approval.HrApproval | app.py:98-105 | `approve` on a pending_hr row writes approved, appends the HR entry and notifies the row's employee. |
| Approval.ApprovalOutsidePendingIgnored | app.py:89-105 | `approve` on any other status changes nothing and tells no one. |
| Approval.RejectionAlwaysTaken | app.py:107-114 | `reject` writes rejected, appends the rejection entry and notifies the employee, whatever the status was. |
| Approval.RepeatedApprovalSkipsHr | app.py:89-105 | The same `approve:id` delivered twice takes a pending_supervisor row to approved without any HR action. |
| Approval.PostbackKeepsReasons | app.py:85-111 | A postback never clears a reason cell. |
| Approval.NoFaultWithReasons | app.py:143-145 | When every data row has a reason, a postback never hits the get_leave_details fault. |
| Workflow.SubmittedIsFound | app.py:136-141 | On a sheet with a header, a submitted request with a fresh id is found in the row just appended. |
| Workflow.FirstRowOfEmptySheetLost | app.py:138 | On an empty sheet the first request takes the header position. It is never found, and its buttons do nothing. |
| Workflow.SubmitThenSupervisorApproves | app.py:89-97 | After a submission, the supervisor's approve button moves the new row to pending_hr and leaves the earlier rows alone. HR receives exactly the submitted fields. |
| Workflow.MessageKeepsReasons | app.py:56-64 | Handling a message never adds a data row without a reason. |
| Signoff.ParseApproveData | server.js:2 | The action has no `=`. The row field is missing exactly when the data has no `=`. Otherwise the data starts with `action=row`, and the row field is the whole second field: it runs up to the next `=` or to the end of the data. |
| Signoff.RowNumber | server.js:3 | The row number is defined exactly when the field is present and all decimal digits. It is then their decimal value. |
| Signoff.TargetIndex | server.js:3-7 | The addressed index, when there is one, lies inside the sheet. |
| Signoff.HandleApprove | server.js:1-23 | The handler throws exactly when the data names no row. Otherwise it changes only the addressed row, and only the two named fields. It changes the row exactly when it decides, and a notice follows exactly then. A decided row no longer reads 待簽. |
| Signoff.Decision | server.js:11 | The decision is 核准 exactly on `approve` and 駁回 otherwise. It is never 待簽. |
| Signoff.StatusAfter | server.js:13 | The status becomes 處理中 exactly on 核准, and 駁回 otherwise. |
| Signoff.DecideAt | server.js:9-22 | On a found row, a decided row is left alone with the reply 已處理過 and no notice. An undecided row alone changes, in its two named fields, and no longer reads 待簽. A reply other than 已處理過 comes exactly with a notice. |
| Signoff.DecidedRowUntouched | server.js:9 | A row whose supervisor field is not 待簽 is left unchanged, with the reply 已處理過 and no notice. |
| Signoff.DecisionOnPendingRow | server.js:11-22 | `approve` writes 核准 and anything else writes 駁回. The status is 處理中 exactly on 核准 and 駁回 otherwise. HR is told exactly on approval and the employee exactly on rejection. |
| Signoff.SecondDecisionIgnored | server.js:9-14 | After a decision, any later postback for the same row changes nothing and tells no one. |
| Signoff.Idempotent | server.js:9-14 | Handling the same decision twice gives the same sheet as handling it once. |
| Signoff.RowDataAddressesRow | server.js:2-7 | `action=n` addresses `rows[n-1]` when 1 ≤ n ≤ the number of rows, and no row otherwise. The action is read back unchanged. |
| Signoff.RowFieldAddressesRow | server.js:2-7 | `action=<digits>`, leading zeros included, has a row number and addresses `rows[n-1]` for that number `n` when 1 ≤ n ≤ the number of rows, and no row otherwise. |

## Left out

- Flask routing, webhook signature checking, credential and environment loading, and `app.run` (app.py:12-41, 147-148): transport and configuration.
- The gspread and google-spreadsheet calls (`append_row`, `cell`, `update_cell`, `get_all_values`, `row_values`, `getRows`, `save`, `loadInfo`) are not modelled as calls. They are reads and writes of an in-memory `seq<Row>` / `seq<LogRow>`. `append_row` places the row after the last row. Network and API failures are not modelled.
- LINE `reply_message` / `push_message`, the message texts and the quick-reply layout (app.py:116-134, server.js:16-21) are not modelled. Only the recipient, the button data and the details are kept. `renderToHR` and `notifyEmployee` are not part of this model beyond which one is called.
- `uuid.uuid4()` and `datetime.now()` are parameters. The model does not generate ids or read the clock.
- `async`/`await`, and two postbacks racing on the same row: concurrency is out of scope. The handlers are modelled one event at a time.
- Signoff.RowNumber: `Number(rowStr)` is modelled for plain decimal digit strings only. Other spellings that JavaScript's `Number` also reads as an integer (surrounding whitespace, `1.0`, `0x1`, `1e0`) are treated as no row here, where the code would address a row.
- Approval.HandlePostback: when the row's user-id cell is empty, app.py pushes to `None`. The model records an employee notice to the empty id.
- Signoff.HandleApprove: the fields of a log row other than 主管簽核 and 狀態 are an opaque list. The handler neither reads nor writes them.
