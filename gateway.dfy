/**
 * The request handlers of the control daemon: the two token-guarded power actions
 * (`/apagar`, `/reiniciar`), the status check (`/estado`), the telemetry snapshot
 * (`/info`) and the log view (`/logs`).
 *
 * Each handler's effect is first given as a function from the log file (and the request)
 * to an `Outcome`; the `Server` class then carries the state the daemon changes, the log
 * file and the privileged commands it has issued to the OS, and its methods are proved to have
 * exactly those effects.
 */
module Gateway {
  import opened Wrappers
  import opened Text
  import opened EventLog

  /** The one shared secret; a request is authorized only when its token equals it exactly. */
  const TokenSeguro := "miclave123"

  /** The privileged OS commands the daemon can issue. */
  datatype Action = Shutdown | Reboot

  /**
   * What `subprocess.run` does with the command: it either runs and exits with some
   * return code (which the daemon never looks at), or cannot be started and raises.
   */
  datatype RunOutcome = Completed(returnCode: int) | LaunchFailed

  // The long log messages are written as two literals each: the verifier then sees
  // that they hold no newline without unrolling one long literal.

  /** The log message of an authorized request for `a`. */
  function RequestedMessage(a: Action): (msg: string)
    ensures '\n' !in msg
  {
    match a
    case Shutdown => "✅ Solicitud de apagado " + "recibida desde navegador o ESP32"
    case Reboot => "🔄 Solicitud de reinicio " + "recibida desde navegador o ESP32"
  }

  /** The log message of a request for `a` with a wrong or absent token. */
  function DeniedMessage(a: Action): (msg: string)
    ensures '\n' !in msg
  {
    match a
    case Shutdown => "❌ Intento fallido de " + "apagado con token inválido"
    case Reboot => "❌ Intento fallido de " + "reinicio con token inválido"
  }

  /** The body answered to an authorized request for `a`. */
  function ConfirmationBody(a: Action): string
  {
    match a
    case Shutdown => "🛑 Apagando el sistema..."
    case Reboot => "♻️ Reiniciando el sistema..."
  }

  const DeniedBody := "❌ Acceso denegado"
  const StatusMessage := "🔍 Solicitud de verificación " + "del servidor"
  const StatusBody := "✅ Servidor Flask activo y funcionando"

  /** Flask's answer when a handler raises (its HTML page is not modelled). */
  const InternalErrorBody := "Internal Server Error"

  /** `request.args.get('token') == TOKEN_SEGURO`; an absent token is `None` and never matches. */
  predicate Authorized(token: Option<string>)
  {
    token == Some(TokenSeguro)
  }

  /** The log message the gate writes for this request. */
  function GateMessage(a: Action, token: Option<string>): string
  {
    if Authorized(token) then RequestedMessage(a) else DeniedMessage(a)
  }

  /** The effect of one request: the new log file, the commands issued, the HTTP answer. */
  datatype Outcome = Outcome(file: LogFile, issued: seq<Action>, response: Response)

  /** The logged line of a handler call: the old lines are kept and one line reading back as `(ts, msg)` follows. */
  predicate AppendedEntry(before: LogFile, after: LogFile, ts: Stamp, msg: string)
  {
    var ls := Lines(after);
    ls != [] && ls[..|ls| - 1] == Lines(before) &&
    ParseLine(ls[|ls| - 1]) == Some(Entry(ts, msg))
  }

  /**
   * `/apagar` (a = Shutdown) and `/reiniciar` (a = Reboot): log the attempt, then, if the
   * token matched, run the command and confirm.
   */
  function Privileged(a: Action, f: LogFile, token: Option<string>, ts: Stamp, run: RunOutcome): (o: Outcome)
    // a command is issued exactly when the token matched, the event was logged and the OS started it
    ensures o.issued == (if Authorized(token) && CanAppend(f) && run.Completed? then [a] else [])
    // 200 exactly when the command was issued, with the confirmation whatever its return code
    ensures o.response.status == 200 <==> o.issued == [a]
    ensures o.response.status == 200 ==> o.response.body == ConfirmationBody(a)
    // 403 exactly for a logged request with a wrong or absent token
    ensures o.response.status == 403 <==> !Authorized(token) && CanAppend(f)
    ensures o.response.status == 403 ==> o.response.body == DeniedBody
    ensures o.response.status !in {200, 403} ==> o.response == Response(InternalErrorBody, 500)
    // the log: one appended line, success or failure after the token; unchanged if the open failed
    ensures CanAppend(f) ==> Some(o.file) == Append(f, FormatLine(ts, GateMessage(a, token)))
    ensures CanAppend(f) ==> Content(o.file) == Content(f) + FormatLine(ts, GateMessage(a, token))
    ensures CanAppend(f) && Terminated(Content(f)) ==> AppendedEntry(f, o.file, ts, GateMessage(a, token))
    ensures !CanAppend(f) ==> o.file == f
  {
    var msg := GateMessage(a, token);
    match Append(f, FormatLine(ts, msg))
    case None => Outcome(f, [], Response(InternalErrorBody, 500))
    case Some(g) =>
      if !Authorized(token) then Outcome(g, [], Response(DeniedBody, 403))
      else if run.LaunchFailed? then Outcome(g, [], Response(InternalErrorBody, 500))
      else Outcome(g, [a], Response(ConfirmationBody(a), 200))
  }

  /** The command's return code has no influence on anything the daemon does. */
  lemma ReturnCodeIgnored(a: Action, f: LogFile, token: Option<string>, ts: Stamp, c1: int, c2: int)
    ensures Privileged(a, f, token, ts, Completed(c1)) == Privileged(a, f, token, ts, Completed(c2))
  {
    var o1 := Privileged(a, f, token, ts, Completed(c1));
    var o2 := Privileged(a, f, token, ts, Completed(c2));
    if !CanAppend(f) {
      assert o1.file == f == o2.file;
    } else {
      assert Some(o1.file) == Append(f, FormatLine(ts, GateMessage(a, token))) == Some(o2.file);
    }
    assert o1.issued == o2.issued;
    assert o1.response == o2.response;
  }

  /** `/estado`: log a status check and answer with the fixed body; no command is issued. */
  function StatusCheck(f: LogFile, ts: Stamp): (o: Outcome)
    ensures o.issued == []
    ensures o.response == if CanAppend(f) then Response(StatusBody, 200) else Response(InternalErrorBody, 500)
    ensures CanAppend(f) ==> Some(o.file) == Append(f, FormatLine(ts, StatusMessage))
    ensures CanAppend(f) ==> Content(o.file) == Content(f) + FormatLine(ts, StatusMessage)
    ensures CanAppend(f) && Terminated(Content(f)) ==> AppendedEntry(f, o.file, ts, StatusMessage)
    ensures !CanAppend(f) ==> o.file == f
  {
    assert '\n' !in StatusMessage;
    match Append(f, FormatLine(ts, StatusMessage))
    case None => Outcome(f, [], Response(InternalErrorBody, 500))
    case Some(g) => Outcome(g, [], Response(StatusBody, 200))
  }

  /**
   * Repeated status checks answer identically: the second call, made on the log the
   * first one left, gives the same response, and the log stays appendable.
   */
  lemma StatusCheckRepeats(f: LogFile, ts1: Stamp, ts2: Stamp)
    ensures var g := StatusCheck(f, ts1).file;
            CanAppend(g) == CanAppend(f) &&
            StatusCheck(g, ts2).response == StatusCheck(f, ts1).response
  {
  }

  /** What `/info` gathers from the host; `temperaturaCpu` is None when the sensor cannot be read. */
  datatype Telemetry = Telemetry(
    hostname: string,
    sistema: string,
    version: string,
    uptime: string,
    cpuUsoPercent: real,
    ramUsoPercent: real,
    temperaturaCpu: Option<real>)

  /** The daemon's mutable state: the log file and the history of commands issued to the OS. */
  class Server {
    var file: LogFile
    var commands: seq<Action>

    /** Startup: whatever log file exists already; no command has been issued. */
    constructor (f: LogFile)
      ensures file == f && commands == []
    {
      file := f;
      commands := [];
    }

    /** `log_event`: append one formatted line; `ok` is false when opening the file raises. */
    method LogEvent(ts: Stamp, msg: string) returns (ok: bool)
      modifies this`file
      ensures ok == CanAppend(old(file))
      ensures ok ==> Some(file) == Append(old(file), FormatLine(ts, msg))
      ensures !ok ==> file == old(file)
    {
      var r := Append(file, FormatLine(ts, msg));
      if r.Some? {
        file := r.value;
        ok := true;
      } else {
        ok := false;
      }
    }

    /** `GET /apagar?token=...`. */
    method Apagar(token: Option<string>, ts: Stamp, run: RunOutcome) returns (body: string, status: int)
      modifies this
      ensures var o := Privileged(Shutdown, old(file), token, ts, run);
              file == o.file && commands == old(commands) + o.issued && Response(body, status) == o.response
    {
      if token == Some(TokenSeguro) {
        var ok := LogEvent(ts, RequestedMessage(Shutdown));
        if !ok { return InternalErrorBody, 500; }
        if run.LaunchFailed? { return InternalErrorBody, 500; }
        commands := commands + [Shutdown];
        return ConfirmationBody(Shutdown), 200;
      } else {
        var ok := LogEvent(ts, DeniedMessage(Shutdown));
        if !ok { return InternalErrorBody, 500; }
        return DeniedBody, 403;
      }
    }

    /** `GET /reiniciar?token=...`. */
    method Reiniciar(token: Option<string>, ts: Stamp, run: RunOutcome) returns (body: string, status: int)
      modifies this
      ensures var o := Privileged(Reboot, old(file), token, ts, run);
              file == o.file && commands == old(commands) + o.issued && Response(body, status) == o.response
    {
      if token == Some(TokenSeguro) {
        var ok := LogEvent(ts, RequestedMessage(Reboot));
        if !ok { return InternalErrorBody, 500; }
        if run.LaunchFailed? { return InternalErrorBody, 500; }
        commands := commands + [Reboot];
        return ConfirmationBody(Reboot), 200;
      } else {
        var ok := LogEvent(ts, DeniedMessage(Reboot));
        if !ok { return InternalErrorBody, 500; }
        return DeniedBody, 403;
      }
    }

    /** `GET /estado`. */
    method Estado(ts: Stamp) returns (body: string, status: int)
      modifies this
      ensures var o := StatusCheck(old(file), ts);
              file == o.file && commands == old(commands) && Response(body, status) == o.response
    {
      var ok := LogEvent(ts, StatusMessage);
      if !ok { return InternalErrorBody, 500; }
      return StatusBody, 200;
    }

    /**
     * `GET /info`: answers the snapshot the host provided, with 200. It has no
     * `modifies` clause, so neither the log nor the command history can change.
     */
    method Info(snapshot: Telemetry) returns (data: Telemetry, status: int)
      ensures data == snapshot && status == 200
    {
      return snapshot, 200;
    }

    /**
     * `GET /logs`: reads the file (`reason` is the text of the exception raised when it
     * cannot) and changes nothing.
     */
    method VerLogs(reason: string) returns (body: string, status: int)
      ensures Response(body, status) == ViewLogs(file, reason)
    {
      var r := ViewLogs(file, reason);
      return r.body, r.status;
    }
  }
}
