/** The print-control JSON-RPC methods of the Moonraker client mock: the
    registry entries `register_print_handlers` installs, and what each
    handler does with its parameters, its callbacks and the result of the
    mock's own print operation.

    The print state itself (which operation succeeds when) belongs to the
    mock's internal start/pause/resume/cancel operations and is not part of
    this model: a handler is given the value that operation returned. */
module PrintMock {
  import opened Common
  import opened Json
  import opened MoonrakerErrors

  /** The five handlers of this file. */
  datatype PrintHandler =
    | GcodeScriptHandler
    | PrintStartHandler
    | PrintPauseHandler
    | PrintResumeHandler
    | PrintCancelHandler

  /** A registry entry: one of the print handlers, or a handler some other
      part of the mock registered, by identity. */
  datatype Handler = Print(handler: PrintHandler) | Other(id: nat)

  /** The mock operation a handler invokes on the client. */
  datatype Internal =
    | Script(script: string)
    | StartPrint(filename: string)
    | Pause
    | Resume
    | Cancel

  /** A callback invocation: the success callback with a response, or the
      error callback with an error. */
  datatype Reply = Succeeded(cb: nat, response: Json) | Failed(report: Reported)

  /** What one handler invocation does: the mock operation it calls (if
      any), the callback it calls (if any), and the value it returns. */
  datatype Outcome = Outcome(call: Option<Internal>, reply: Option<Reply>, handled: bool)

  function MethodName(h: PrintHandler): string
  {
    match h
    case GcodeScriptHandler => "printer.gcode.script"
    case PrintStartHandler => "printer.print.start"
    case PrintPauseHandler => "printer.print.pause"
    case PrintResumeHandler => "printer.print.resume"
    case PrintCancelHandler => "printer.print.cancel"
  }

  const PrintMethods: set<string> :=
    {"printer.gcode.script", "printer.print.start", "printer.print.pause", "printer.print.resume", "printer.print.cancel"}

  /** Each print handler has its own method name, and these are the five. */
  lemma MethodNamesDistinct(h1: PrintHandler, h2: PrintHandler)
    ensures MethodName(h1) in PrintMethods
    ensures MethodName(h1) == MethodName(h2) <==> h1 == h2
  {
  }

  /** register_print_handlers: the five method names map to their handlers
      (replacing any earlier entry); every other entry stays. */
  method RegisterPrintHandlers(registry: map<string, Handler>) returns (r: map<string, Handler>)
    ensures r.Keys == registry.Keys + PrintMethods
    ensures forall h: PrintHandler :: r[MethodName(h)] == Print(h)
    ensures forall k :: k in registry && k !in PrintMethods ==> r[k] == registry[k]
  {
    r := registry;
    r := r["printer.gcode.script" := Print(GcodeScriptHandler)];
    r := r["printer.print.start" := Print(PrintStartHandler)];
    r := r["printer.print.pause" := Print(PrintPauseHandler)];
    r := r["printer.print.resume" := Print(PrintResumeHandler)];
    r := r["printer.print.cancel" := Print(PrintCancelHandler)];
  }

  /** `if (params.contains(key)) s = params[key].get<std::string>();`: the
      string under `key`, "" when there is none, and the conversion's
      exception when the value is not a string. */
  function StringParam(params: Json, key: string): (r: Result<string, TypeError>)
    ensures !Has(params, key) ==> r == Ok("")
    ensures Has(params, key) ==> (r.Ok? <==> Member(params, key).value.JStr?)
    ensures Has(params, key) && r.Ok? ==> r.value == Member(params, key).value.s
  {
    if Has(params, key) then AsString(Member(params, key).value) else Ok("")
  }

  /** The success reply: an empty object, when there is a success callback. */
  function SucceedWith(successCb: Option<nat>): Option<Reply>
  {
    if successCb.Some? then Some(Succeeded(successCb.value, JObj([]))) else None
  }

  /** The failure reply: a validation error, when there is an error callback. */
  function FailWith(errorCb: Option<nat>, rpcMethod: string, message: string): Option<Reply>
  {
    var rep := ReportError(errorCb, ValidationError, rpcMethod, message);
    if rep.Some? then Some(Failed(rep.value)) else None
  }

  /** The operation a pause, resume or cancel handler calls. */
  function ControlCall(h: PrintHandler): Internal
    requires h != GcodeScriptHandler && h != PrintStartHandler
  {
    match h
    case PrintPauseHandler => Pause
    case PrintResumeHandler => Resume
    case PrintCancelHandler => Cancel
  }

  /** The message a pause, resume or cancel handler reports on failure. */
  function ControlMessage(h: PrintHandler): string
    requires h != GcodeScriptHandler && h != PrintStartHandler
  {
    match h
    case PrintPauseHandler => "Cannot pause - not currently printing"
    case PrintResumeHandler => "Cannot resume - not currently paused"
    case PrintCancelHandler => "Cannot cancel - no active print"
  }

  /** One handler invocation. `ok` is what the mock operation returns when
      the handler calls it; the script handler ignores it. A parameter of
      the wrong type throws out of the handler before anything is called. */
  function Handle(h: PrintHandler, params: Json, ok: bool, successCb: Option<nat>, errorCb: Option<nat>): (r: Result<Outcome, TypeError>)
    ensures r.Ok? ==> r.value.handled
    ensures r.Ok? && r.value.reply.Some? && r.value.reply.value.Succeeded? ==>
              successCb == Some(r.value.reply.value.cb) && r.value.reply.value.response == JObj([])
    ensures r.Ok? && r.value.reply.Some? && r.value.reply.value.Failed? ==>
              errorCb == Some(r.value.reply.value.report.cb) && r.value.reply.value.report.error.kind == ValidationError
              && r.value.reply.value.report.error.rpcMethod == MethodName(h)
    ensures r.Err? <==> (h == GcodeScriptHandler && StringParam(params, "script").Err?)
                        || (h == PrintStartHandler && StringParam(params, "filename").Err?)
  {
    match h
    case GcodeScriptHandler =>
      var script := StringParam(params, "script");
      if script.Err? then Err(script.error)
      else Ok(Outcome(Some(Script(script.value)), SucceedWith(successCb), true))
    case PrintStartHandler =>
      var param := StringParam(params, "filename");
      if param.Err? then Err(param.error)
      else if param.value != "" then
        if ok then Ok(Outcome(Some(StartPrint(param.value)), SucceedWith(successCb), true))
        else Ok(Outcome(Some(StartPrint(param.value)), FailWith(errorCb, MethodName(h), "Failed to start print"), true))
      else
        Ok(Outcome(None, FailWith(errorCb, MethodName(h), "Missing filename parameter"), true))
    case _ =>
      if ok then Ok(Outcome(Some(ControlCall(h)), SucceedWith(successCb), true))
      else Ok(Outcome(Some(ControlCall(h)), FailWith(errorCb, MethodName(h), ControlMessage(h)), true))
  }

  /** The script handler forwards the script, or "" when there is none, and
      succeeds whenever it has a success callback; it never reports an error. */
  lemma GcodeForwardsScript(params: Json, ok: bool, successCb: Option<nat>, errorCb: Option<nat>)
    ensures var r := Handle(GcodeScriptHandler, params, ok, successCb, errorCb);
            !Has(params, "script") ==> r.Ok? && r.value.call == Some(Script(""))
    ensures var r := Handle(GcodeScriptHandler, params, ok, successCb, errorCb);
            Has(params, "script") && Member(params, "script").value.JStr? ==>
              r.Ok? && r.value.call == Some(Script(Member(params, "script").value.s))
    ensures var r := Handle(GcodeScriptHandler, params, ok, successCb, errorCb);
            r.Ok? ==> (r.value.reply.Some? <==> successCb.Some?) && (r.value.reply.Some? ==> r.value.reply.value.Succeeded?)
  {
  }

  /** A start request without a filename (absent or empty) starts nothing
      and reports "Missing filename parameter" to the error callback. */
  lemma StartWithoutFilename(params: Json, ok: bool, successCb: Option<nat>, errorCb: Option<nat>)
    requires !Has(params, "filename") || Member(params, "filename").value == JStr("")
    ensures var r := Handle(PrintStartHandler, params, ok, successCb, errorCb);
            r.Ok? && r.value.call.None?
            && r.value.reply == (if errorCb.Some? then
                                   Some(Failed(Reported(errorCb.value, MoonrakerError(ValidationError, 0, "Missing filename parameter", "printer.print.start"))))
                                 else None)
  {
  }

  /** A start request with a filename starts that file, and succeeds exactly
      when the start does; otherwise it reports "Failed to start print". */
  lemma StartWithFilename(params: Json, f: string, ok: bool, successCb: Option<nat>, errorCb: Option<nat>)
    requires Has(params, "filename") && Member(params, "filename").value == JStr(f) && f != ""
    ensures var r := Handle(PrintStartHandler, params, ok, successCb, errorCb);
            r.Ok? && r.value.call == Some(StartPrint(f))
            && (ok ==> r.value.reply == SucceedWith(successCb))
            && (!ok ==> r.value.reply == FailWith(errorCb, "printer.print.start", "Failed to start print"))
  {
  }

  /** Pause, resume and cancel always call their operation and ignore the
      parameters; they succeed exactly when it does and otherwise report the
      handler's own message under the handler's own method name. */
  lemma ControlSucceedsIff(h: PrintHandler, params: Json, ok: bool, successCb: Option<nat>, errorCb: Option<nat>)
    requires h in {PrintPauseHandler, PrintResumeHandler, PrintCancelHandler}
    ensures var r := Handle(h, params, ok, successCb, errorCb);
            r.Ok? && r.value == Handle(h, JNull, ok, successCb, errorCb).value
            && r.value.call == Some(ControlCall(h))
            && (successCb.Some? ==> (ok <==> r.value.reply.Some? && r.value.reply.value.Succeeded?))
            && (errorCb.Some? ==> (!ok <==> r.value.reply.Some? && r.value.reply.value.Failed?))
            && (!ok && errorCb.Some? ==>
                  r.value.reply.value.report.error == MoonrakerError(ValidationError, 0, ControlMessage(h), MethodName(h)))
  {
  }

  /** At most one callback is called, and only one that is set: a success
      reply never goes to a missing success callback, a failure never to a
      missing error callback, and with neither set there is no reply. */
  lemma NoReplyWithoutCallbacks(h: PrintHandler, params: Json, ok: bool)
    ensures var r := Handle(h, params, ok, None, None);
            r.Ok? ==> r.value.reply.None?
  {
  }
}
