# VPS monitoring bot — a Dafny model of its core

The bot watches one VPS and reports to two Discord channels.

- Every five minutes `checkstatus` asks the VPS for `top -bn1`. It parses the
  CPU line and the memory line of that output into a CPU figure and a memory
  percentage (`get_usage`). It renders each figure as a 20-cell progress bar
  (`generate_progress_bar`). It then publishes one status message: the
  message is created the first time and edited in place afterwards.
- Every minute `monitor_logins` reads the `Accepted` lines of the VPS's
  `auth.log` tail. It drops the bot's own logins (`get_login_events`). It
  alerts once for each line not yet in its `reported_logins` ledger, and
  adds that line to the ledger.

The model has six modules:

- `Wrappers`: `Option`.
- `Text`: the Python `str` operations that the parsing uses. These are
  `strip`, `split` on one character, `replace(pat, "")`, `in` and
  `splitlines`, each defined as CPython computes it.
- `Usage`: the `get_usage` parse.
- `ProgressBar`: `generate_progress_bar`.
- `Logins`: the login filter, plus the dedup loop as a class `LoginMonitor`.
  The class holds the ledger as a `set<string>` and the alerts sent as a
  `seq<string>`.
- `Status`: the status message's content, plus the edit-or-create step as
  a class `StatusBoard`. The class holds `prev_stat_message` as an
  `Option` handle.

Two client methods drive the classes over whole runs of their timers from a
fresh start: `Logins.RepeatedFirings` and `Status.StatusFirings`.

Points where the model follows the code rather than the documented intent:

- The memory figure is `free / total * 100` (bot.py:50-51). The code reads
  the second comma field, which `top` labels `free`, into `mem_used`.
  `MemoryPercent` therefore states that the figure is the share of FREE
  memory: it and the used share add up to 100. `TopScenario` shows a
  machine with 8000 MiB in all and 2000 MiB free: it is reported at 25%,
  not 75%.
- The CPU figure is stripped twice, once before and once after the `%` and
  `us` deletions (bot.py:43). The memory figures are stripped once, after
  the deletion (bot.py:49-50).
- Any failure inside `get_usage` yields `(None, None)` (bot.py:55-57), and
  `checkstatus` then does nothing (bot.py:85). The model merges the two:
  `ParseUsage` returns `None`. The failures are a missing line or field, a
  figure `float()` rejects, and a zero total (`ZeroDivisionError`).

## Model

| member | source | states |
|---|---|---|
| Text.StripLeft | bot.py:43 | the result is a suffix of the input; what was dropped is all white space; the result does not start with white space |
| Text.StripRight | bot.py:43 | the result is a prefix of the input; what was dropped is all white space; the result does not end with white space |
| Text.Strip | bot.py:39 | the result neither starts nor ends with white space, and every character in it occurs in the input |
| Text.StripSurrounded | bot.py:39 | every text is its strip with white space on both sides |
| Text.StripPadded | bot.py:43 | stripping a token that has white space on both sides gives the token back |
| Text.StripUnpadded | bot.py:43 | a text that has no white space at either end is its own strip |
| Text.IndexOf | bot.py:42 | the index found holds the element, and no earlier index does |
| Text.IndexOfInTail | bot.py:193 | past a head that is not the element, its first occurrence is one further on than in the tail |
| Text.Split | bot.py:42 | there is at least one piece; no piece holds the separator; joining the pieces with the separator gives the input back; there is a second piece exactly when the input holds the separator |
| Text.SplitHead | bot.py:42 | a text whose head has no separator splits into that head followed by the split of the rest |
| Text.Contains | bot.py:167 | Python's `sub in s`: `sub` occurs at some position of `s`; ContainsEmpty and ContainsInfix state that the empty text is in every text and a text is in anything built around it, and EmptyUserDropsEveryLine what that means for an empty SSH user |
| Text.ContainsEmpty | bot.py:167 | the empty text is in every text |
| Text.ContainsInfix | bot.py:167 | a text is in any text built around it |
| Text.Remove | bot.py:43 | every character left occurs in the input; a one-character pattern leaves no copy of itself; input without the pattern's first character is unchanged |
| Text.RemoveSkip | bot.py:49-50 | a prefix that cannot start the pattern passes through the deletion unchanged |
| Text.RemoveWhole | bot.py:49-50 | deleting a pattern from itself leaves nothing |
| Text.LineEnd | bot.py:39 | the first line has no line break, and it ends at a line break or at the end of the text |
| Text.SplitLines | bot.py:39 | no line holds a line break; there are no lines exactly when the text is empty; a non-empty text without a break is one line |
| Text.LineEndAt | bot.py:39 | the first line of a text ends at its first line break |
| Text.SplitLinesHeadAny | bot.py:39 | a line followed by any single line break splits off as the first line, a carriage return counting alone only when no newline follows it |
| Text.SplitLinesHeadCrLf | bot.py:166 | a line followed by "\r\n", as the pty output of bot.py:157 ends its lines, splits off as the first line: the pair is one break |
| Text.SplitLinesHead | bot.py:39 | a line followed by a newline splits off as the first line |
| Usage.Lines | bot.py:39 | the output has no lines exactly when it is all white space |
| Usage.CpuToken | bot.py:41-43 | the CPU text exists exactly when the first comma field has a `:`; it has no `%` and no white space at either end |
| Usage.TotalToken | bot.py:47-49 | the total's text exists exactly when the memory line's first comma field has a `:`; it has no white space at either end |
| Usage.FreeToken | bot.py:47-50 | the free text exists exactly when the memory line has a comma; it has no white space at either end |
| Usage.MemoryPercent | bot.py:51 | the figure and the used share add up to 100; it lies in [0, 100] whenever the free amount lies between 0 and the total |
| Usage.ParseUsage | bot.py:39-57 | a result needs two lines, a CPU text on the first and both memory texts on the second; ParseUsageFailures, ParseUsageOfTokens and TopOutputParses state when it is None and what the figures are |
| Usage.GetUsage | bot.py:30-57 | no figures when the remote command fails; figures only from an output of at least two lines |
| Usage.ParseUsageFailures | bot.py:39-57 | too few lines, a first comma field with no `:` on either line, a memory line with no comma, or a zero total each give None |
| Usage.ParseUsageOfTokens | bot.py:41-54 | for any output of at least two lines whose first two lines yield all three texts, the result is the pair of figures exactly when all three parse and the total is non-zero; later lines are ignored |
| Usage.LinesIgnoreTrailingSpace | bot.py:38-39 | white space after the last line, such as the newline `grep` ends each line with, does not change the lines |
| Usage.TopOutputParses | bot.py:38-57 | `top`'s two lines, whatever their padding and trailing fields and whatever white space follows them (the newline `grep` prints included), parse back to the user-time figure and free over total, or to None when a figure does not parse or the total is zero |
| Usage.CpuTokenOfLine | bot.py:41-43 | the CPU text of a CPU line is the user-time figure it was built from |
| Usage.TotalTokenOfLine | bot.py:47-49 | the total's text of a memory line is the total it was built from |
| Usage.FreeTokenOfLine | bot.py:47-50 | the free text of a memory line is the free amount it was built from |
| Usage.TwoLines | bot.py:39 | two one-line texts joined by a newline give back exactly those two lines |
| Usage.TopScenario | bot.py:38-54 | a typical output of the `top`/`grep` command, both lines ended by a newline, with 3.2% user time, 8000 MiB total and 2000 MiB free gives (3.2, 25.0) |
| ProgressBar.Trunc | bot.py:63 | `int()` on a real truncates toward zero: the result has the argument's sign and lies within one of it |
| ProgressBar.Repeat | bot.py:64 | `c * n` has `max(n, 0)` copies of `c` |
| ProgressBar.FilledCells | bot.py:63 | for a non-negative percentage and width, the full-cell count is the whole part of p / 100 * length; DefaultBarBounds, FilledMonotonic and DefaultBarOverflow state its range |
| ProgressBar.Cells | bot.py:63-64 | the full cells followed by the blanks; CellsLayout states their order and number, DefaultBarBounds that there are 20 for a percentage in [0, 100] |
| ProgressBar.Render | bot.py:64 | the bar is `[`, the cells, `] `, the shown figure and `%`, in that order and nothing else; CellsLayout states the cells |
| ProgressBar.CellsLayout | bot.py:63-64 | the bar holds the full cells first, then the blanks; there are `length` cells unless the filled count falls outside [0, length] |
| ProgressBar.DefaultBarBounds | bot.py:61-64 | for a percentage in [0, 100], the full-cell count is floor(p / 100 * 20), lies in [0, 20], and the bar has exactly 20 cells |
| ProgressBar.DefaultBarEndpoints | bot.py:63 | 0% fills no cell, 50% fills ten and 100% fills all twenty |
| ProgressBar.TruncMonotonic | bot.py:63 | truncation never decreases as its argument grows |
| ProgressBar.FilledMonotonic | bot.py:63 | the full-cell count never decreases as the percentage grows |
| ProgressBar.DefaultBarOverflow | bot.py:63-64 | from 105% on, the bar has more than 20 full cells and no blank |
| Logins.Truthy | bot.py:167 | Python's truthiness of `bot_ip` in `if bot_ip`: present and non-empty |
| Logins.KeepLine | bot.py:167 | the comprehension's test; FilterLogins states that exactly the lines passing it are kept |
| Logins.FilterLogins | bot.py:165-168 | the kept lines are a subsequence of the input; none names the SSH user; none names a truthy bot IP; each line that passes the test is kept as often as it occurs, and no other line is kept |
| Logins.GetLoginEvents | bot.py:161-173 | no events when the command fails; no event names the SSH user |
| Logins.EmptyUserDropsEveryLine | bot.py:165-168 | with an empty SSH user every line is dropped, since the empty text is in every line |
| Logins.FalsyIpKeepsOnlyUserTest | bot.py:167 | an absent or empty bot IP turns off only the IP test |
| Logins.NewAlerts | bot.py:193-201 | the alerts of one pass as a recursive definition; AlertedIffNew, AlertsDistinct, AlertsInFirstOccurrenceOrder and RepeatAlertsNothing state what it sends, and MonitorLogins is proved to send it |
| Logins.NewAlertsStep | bot.py:193-195 | one loop step alerts the first event if it is new, and continues with the ledger grown by it |
| Logins.AlertedIffNew | bot.py:193-201 | an event is alerted exactly when it is in the batch and not yet in the ledger |
| Logins.AlertsDistinct | bot.py:193-201 | no event is alerted twice, even when it repeats within a batch |
| Logins.AlertsInFirstOccurrenceOrder | bot.py:193-201 | alerts go out in the order in which their events first occur in the batch |
| Logins.RepeatAlertsNothing | bot.py:193-195 | a batch whose events are already in the ledger alerts nothing |
| Logins.LoginMonitor.constructor | bot.py:186 | the ledger starts empty and nothing has been sent |
| Logins.LoginMonitor.MonitorLogins | bot.py:186-201 | the ledger grows by exactly the batch; the alerts sent are exactly the new events at their first occurrence; every ledger entry was alerted exactly once |
| Logins.RepeatedFirings | bot.py:186-201 | repeated firings on one batch alert each distinct event exactly once, and alert only events from the batch |
| Status.Present | bot.py:87-108 | the content carries the time; the reachability line is the online line exactly when the ping answered, and the offline line exactly when it did not |
| Status.StatusBoard.constructor | bot.py:77 | there is no status message yet |
| Status.StatusBoard.CheckStatus | bot.py:80-113 | without figures nothing changes; with figures there is exactly one status message holding the new content, which is created when there was none and edited in place otherwise |
| Status.Measured | bot.py:85 | the number of cycles with figures; StatusFirings states that it is the number of creates plus edits |
| Status.LastShown | bot.py:87-113 | the content of the last cycle with figures; StatusFirings states that the status message shows it |
| Status.FiringStep | bot.py:85-113 | one more cycle adds a measured cycle exactly when it has figures, and then its content is the one shown |
| Status.StatusFirings | bot.py:77-113 | over any run, one message is created if any firing had figures and none otherwise; every later firing with figures is an edit; the message shows the last figures |

## Left out

- Discord is left out: the client, channels, `send`, `edit` and message
  deletion in the `status` command. The embed's fixed title, description,
  colour and footer are left out too. Sending and editing are modelled as
  changes to `StatusBoard.posts` and `LoginMonitor.sent`.
- SSH is left out: paramiko, the credentials and the `sudo` password. The
  remote command's output is an input, `Option<string>`; `None` stands for
  any failure before the text is read.
- The ping subprocess in `is_server_online` is left out. Its result is the
  input `online`.
- `get_bot_public_ip` and `os.getenv(...)` are left out. Their result is the
  input `botIp`. When the public-IP lookup fails, `os.getenv(None)` raises
  and `get_login_events` returns `[]`. That path is covered only as
  `stdout == None`.
- If `SSH_USERNAME` is unset, `None in line` raises a `TypeError`. The model
  takes the user as a string.
- `float()` is left out. It is the parameter `number: string -> Option<real>`.
  Floating point is modelled as exact reals, so rounding in `/`, `*` and in
  `int()` of the product is not captured.
- `float()` also accepts `"nan"` and `"inf"`, and a huge free amount over
  a tiny non-zero total overflows to infinity at bot.py:51. No real number
  stands for these values, so `number` cannot produce them, and the model
  reaches none of the following cases. A CPU figure or memory percentage
  that is `nan` or infinite gets through `get_usage`; `int()` in
  `generate_progress_bar` (bot.py:63) then raises `ValueError` or
  `OverflowError`, outside any `try`, from the call in `checkstatus`
  (bot.py:87), and that status cycle is aborted. An infinite total with a
  finite free amount instead gives a memory figure of 0, so the code draws
  an empty bar and publishes as usual.
- The `print` diagnostics are left out: the error messages at bot.py:56,
  72, 74, 146, 172 and 183 and the start-up message at bot.py:205. They
  only write to the console.
- The `:.2f` rendering of a percentage is left out. It is the parameter
  `format`, which gives the `shown` text of `ProgressBar.Render`.
- The timestamp (`datetime.now().strftime`) is the input `time`.
- Logins.LoginMonitor.MonitorLogins: assumes every `channel.send` succeeds.
  The code adds an event to `reported_logins` (bot.py:195) before it sends
  the alert (bot.py:201). If the send raises, that event stays in the
  ledger without ever being alerted, and the rest of the batch is skipped.
  `LoginMonitor.Valid` (ledger equals the alerts sent) and "every ledger
  entry was alerted exactly once" hold only when no send fails.
- Status.StatusBoard.CheckStatus: assumes `send` and `edit` succeed. If the
  send at bot.py:113 raises, no handle is stored; if the edit at bot.py:111
  raises, the message keeps its old content. Neither failure is modelled.
- Status.StatusFirings: holds only for cycles that run one after another.
  The `status` command (bot.py:66-68) calls `checkstatus` in the same event
  loop as the five-minute timer. If one call runs while the other's first
  `await channel.send` (bot.py:113) is still pending, both see
  `prev_stat_message` as None and two status messages are created. The
  at-most-one-create result does not cover this interleaving.
- The `tasks.loop` timers, `on_ready`, and the bot's start-up and
  configuration are left out. The client methods `RepeatedFirings` and
  `StatusFirings` model consecutive firings as a sequence of inputs.
  Concurrency between the two timers is not modelled.
- `Text.IsSpace` and `Text.IsLineBreak` list the characters explicitly.
  Python's `isspace` and `splitlines` sets are given as ranges, without a
  Unicode database.
- Text.Remove: the contract does not say which characters are deleted.
  It says only that the result is drawn from the input's characters, so a
  function that deleted every `u` for the pattern `us` would also meet it.
  `RemoveSkip` and `RemoveWhole` pin the result for the shapes the parse
  meets: text that cannot start the pattern is kept, and the pattern
  itself is deleted.
