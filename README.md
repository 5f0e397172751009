# Remote power-control daemon: gateway and event log

This project models the core of a small Flask daemon (`servidor/pc_control_server.py`) that
lets a browser or an ESP32 shut down or reboot the host it runs on. The model covers:

- the **token gate** on `/apagar` (shutdown) and `/reiniciar` (reboot), which compares the
  request's `token` with the hard-coded secret `TOKEN_SEGURO`;
- the **append-only event log** that every power request and every `/estado` status check
  writes one line to: `log_event` appends `"[<timestamp>] <message>\n"`;
- the **log view** `/logs`, which answers the last ten lines of that file;
- `/info`, but only as a handler that leaves the log and the command history alone.

The model is built in layers:

- `text.dfy` (module `Text`) models Python's text-mode `readlines()`, `''.join` and the slice
  `xs[-10:]`. It proves that splitting a text into lines and joining them are inverse
  operations. It also proves what appending one complete line does to the split lines.
- `event_log.dfy` (module `EventLog`) defines three things:
  - the log line format, with a parser that reads a line back into its timestamp and message;
  - the log file, which can be missing, unreadable or unwritable;
  - `Append` (the effect of `log_event`) and `ViewLogs` (`/logs`).
- `gateway.dfy` (module `Gateway`) gives each handler's effect as a pure function of the log
  file and the request (`Privileged`, `StatusCheck`). The class `Server` holds the state the
  daemon changes: the log file, and the sequence of `Shutdown`/`Reboot` commands the daemon has
  issued. Each handler is a method of `Server`, and each method is proved to have exactly the
  effect of its function.
- `scenarios.dfy` (module `Scenarios`) proves request sequences: N status checks followed by
  `/logs`, and a shutdown with the right token followed by one with a wrong token.

The daemon's environment becomes input to the model:

- The timestamp `str(datetime.now())` is a parameter of type `Stamp`: a string with no `]`
  and no newline.
- What `subprocess.run` does is a `RunOutcome` parameter. The command either completes with
  some return code or cannot be started.
- The text of the exception `/logs` reports is a `reason` parameter.
- What `/info` gathers is a `Telemetry` parameter.

Details of the code that the model keeps:

- The log message of an authorized request says "desde navegador o ESP32". It does not
  record the client's address.
- The secret is the literal `"miclave123"`.
- If the log file cannot be opened for appending, `log_event` raises. Flask then answers
  500, and the OS command is never run, because logging comes first.
- If the command cannot be started, `subprocess.run` raises and Flask answers 500. A
  command that starts is reported as 200 whatever its return code.

## Model

| member | source | states |
|---|---|---|
| `Text.ReadLines` | servidor/pc_control_server.py:72 | `f.readlines()`: the list is empty only for an empty file and has at most one element per character. `Text.ReadLinesSplits` and `Text.ReadLinesJoin` prove that it cuts just after each newline and loses nothing. |
| `Text.JoinConcat` | servidor/pc_control_server.py:73 | `''.join` (the function `Text.Join`) of two lists put together is the join of the first followed by the join of the second. |
| `Text.SliceFrom` | servidor/pc_control_server.py:72 | Python's `xs[i:]` is always a suffix of `xs`. For a start inside the list it has `len(xs) - i` elements, and for a negative start within range it has `-i` elements. `Text.LastSlice` specialises it to `[-10:]`. |
| `Text.ReadLinesSplits` | servidor/pc_control_server.py:72 | `readlines()` loses nothing: its pieces join back to the file text. Every piece is non-empty, has no inner newline, and all but the last end in a newline. |
| `Text.ReadLinesJoin` | servidor/pc_control_server.py:72-73 | Splitting the join of a well-split list of lines gives the same list back, so `readlines` and `''.join` are inverse. |
| `Text.ReadLinesAppendLine` | servidor/pc_control_server.py:16-18 | Appending one complete line to a text that is empty or ends in a newline adds exactly that line to `readlines()`. All earlier lines are unchanged. |
| `Text.ReadLinesAppendMerge` | servidor/pc_control_server.py:16-18 | Appending one complete line to a text whose last line has no newline glues it onto that last fragment. The number of lines stays the same. |
| `Text.LastSlice` | servidor/pc_control_server.py:72 | For n > 0, `xs[-n:]` is the last `min(n, len(xs))` elements of `xs`, in their original order. |
| `Text.SuffixResplits` | servidor/pc_control_server.py:72-73 | Joining the last lines and splitting the result again gives back exactly those lines. |
| `EventLog.FormatLine` | servidor/pc_control_server.py:18 | The written line `[ts] msg\n` parses back to exactly `(ts, msg)`. It is one complete line whenever the message has no newline. |
| `EventLog.Append` | servidor/pc_control_server.py:16-18 | Appending fails when `open(..., "a")` cannot open the file. Otherwise the old text is kept in front and the line follows it. A missing file becomes a file holding just that line. On an empty or newline-terminated file the lines become the old lines plus this one. |
| `EventLog.ViewLogs` | servidor/pc_control_server.py:68-75 | Status is 200 exactly when the file exists and is readable. Then the body re-splits to the last `min(10, n)` lines in order, and it is a suffix of the file. Otherwise the status is 500 and the body is `"Error leyendo el log: "` followed by the error text. |
| `Gateway.RequestedMessage` | servidor/pc_control_server.py:24 | The log message of an authorized shutdown (line 24) or reboot (line 61) has no newline, so it writes exactly one line. |
| `Gateway.DeniedMessage` | servidor/pc_control_server.py:28 | The log message of a refused shutdown (line 28) or reboot (line 65) has no newline, so it writes exactly one line. |
| `Gateway.Privileged` | servidor/pc_control_server.py:20-29 | The token test of line 23 (and line 60) is the predicate `Authorized`: the token is present and equal to `TOKEN_SEGURO`. A command is issued, and 200 with the confirmation is answered, exactly when the token equals the secret, the log could be appended to and the OS started the command. A non-zero return code still counts as issued. 403 with the denial body is answered exactly for a logged request whose token is wrong or absent. Every other outcome is 500. When the log can be appended to, exactly one line is added, reading back as `(ts, success or failure message)`. Otherwise the log is unchanged. |
| `Gateway.ReturnCodeIgnored` | servidor/pc_control_server.py:25-26 | The command's return code changes nothing in the outcome. |
| `Gateway.StatusCheck` | servidor/pc_control_server.py:31-34 | No command is issued. The answer is the fixed 200 body whenever the log can be appended to, and exactly one status-check line is appended. |
| `Gateway.StatusCheckRepeats` | servidor/pc_control_server.py:31-34 | A second status check, made on the log the first one left, gives the identical response. |
| `Gateway.Server.constructor` | servidor/pc_control_server.py:12-14 | The daemon starts on whatever log file exists, with no command issued. |
| `Gateway.Server.LogEvent` | servidor/pc_control_server.py:16-18 | Returns false when opening the file raises, and the file is then unchanged. Otherwise the new file is the old one with the formatted line appended. |
| `Gateway.Server.Apagar` | servidor/pc_control_server.py:20-29 | The new log, the commands added to the history and the response are exactly those of `Privileged(Shutdown, ...)`. Nothing else changes. |
| `Gateway.Server.Reiniciar` | servidor/pc_control_server.py:57-66 | The new log, the commands added to the history and the response are exactly those of `Privileged(Reboot, ...)`. Nothing else changes. |
| `Gateway.Server.Estado` | servidor/pc_control_server.py:31-34 | The new log and the response are those of `StatusCheck`. The command history is unchanged. |
| `Gateway.Server.Info` | servidor/pc_control_server.py:37-55 | Answers the host snapshot with 200. The method has no write frame, so neither the log nor the command history can change. |
| `Gateway.Server.VerLogs` | servidor/pc_control_server.py:68-75 | Answers `ViewLogs` of the current file and changes nothing. |
| `Scenarios.ChecksAppend` | servidor/pc_control_server.py:31-34 | Any sequence of status checks on a readable, appendable, newline-terminated log adds exactly their lines, in call order. |
| `Scenarios.StatusChecksThenLogs` | servidor/pc_control_server.py:68-75 | After any number of status checks on an empty log, `/logs` answers 200 with the last (at most ten) status-check lines, oldest first. |
| `Scenarios.FiveStatusChecksThenLogs` | servidor/pc_control_server.py:68-75 | Five status checks on an empty log, then `/logs`: exactly the five lines, in call order. |
| `Scenarios.ShutdownRightThenWrong` | servidor/pc_control_server.py:20-29 | The right token then a wrong token give 200 then 403, exactly one shutdown, and a log of one success line followed by one failure line. |

## Left out

- Flask routing, query-string parsing and the server bootstrap (lines 2, 11 and 77-78) are HTTP plumbing. Each route is a direct method call, and an absent `token` parameter is `None`.
- The real effect of `subprocess.run` (lines 25 and 62) is a call into the OS. Only an abstract `Shutdown` or `Reboot` is recorded, and the model does not cover the daemon being killed by its own shutdown before it answers.
- The telemetry `/info` gathers (lines 39-54) comes from foreign calls (`socket`, `platform`, `psutil`, `uptime -p`) and a float division. `Gateway.Server.Info` takes the snapshot as a parameter.
- `datetime.datetime.now()` (line 18) is a clock. The timestamp is a parameter.
- Concurrent requests are out of scope. The model handles one request at a time, and no one else changes the log file or its permissions between requests.
- Text-mode translation of `\r` and `\r\n` to `\n`, and decoding of the file's bytes, are not modelled. The file is taken as decoded text. A decoding failure raises inside the `try` of lines 70-75, so the `readable` flag covers it.
- EventLog.Append: a failure of `f.write` or of the implicit close on line 18 after the file was opened is not modelled. Causes include a full disk when the buffer is flushed and a locale encoding that cannot encode the emoji messages. Flask would then answer 500 without running the command, and the file might be left created but empty, or ending in a partial line that the next event glues onto. The model's only failure is the open itself.
- Gateway.Server.LogEvent: for the same reason, `ok` is false only when opening the log raises, never for a failed write or close after a successful open.
- The HTML page Flask answers with status 500 when a handler raises is the constant `InternalErrorBody`. The text of the exception `/logs` reports is a parameter.
