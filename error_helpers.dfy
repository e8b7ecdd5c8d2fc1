/** The error value handed to on_error callbacks, and the report_* helpers
    that build one and pass it to an optional callback. */
module MoonrakerErrors {
  import opened Common

  datatype ErrorType =
    | NoError
    | ConnectionLost
    | Timeout
    | FileNotFound
    | PermissionDenied
    | ValidationError
    | ParseError
    | Unknown

  datatype MoonrakerError = MoonrakerError(kind: ErrorType, code: int, message: string, rpcMethod: string)

  /** An error callback, by identity; None stands for a null std::function. */
  type ErrorCallback = Option<nat>

  /** One invocation of an error callback. */
  datatype Reported = Reported(cb: nat, error: MoonrakerError)

  /** report_error: the error reaches the callback when there is one, with
      the given kind, method and message and `code` (0 when not given). */
  function ReportError(cb: ErrorCallback, kind: ErrorType, rpcMethod: string, message: string, code: int := 0): (r: Option<Reported>)
    ensures r.None? <==> cb.None?
    ensures r.Some? ==> r.value.cb == cb.value
  {
    if cb.None? then None else Some(Reported(cb.value, MoonrakerError(kind, code, message, rpcMethod)))
  }

  /** The kind an HTTP status maps to. */
  function HttpErrorKind(status: int): ErrorType
  {
    if status == 404 then FileNotFound
    else if status == 403 then PermissionDenied
    else Unknown
  }

  /** The message of an HTTP error names its status. */
  function HttpMessage(status: nat, message: string): string
  {
    "HTTP " + NatToString(status) + ": " + message
  }

  function ReportHttpError(cb: ErrorCallback, status: nat, rpcMethod: string, message: string): (r: Option<Reported>)
    ensures r.None? <==> cb.None?
  {
    ReportError(cb, HttpErrorKind(status), rpcMethod, HttpMessage(status, message), status)
  }

  function ReportConnectionError(cb: ErrorCallback, rpcMethod: string, message: string): (r: Option<Reported>)
    ensures r.None? <==> cb.None?
  {
    ReportError(cb, ConnectionLost, rpcMethod, message)
  }

  function ReportParseError(cb: ErrorCallback, rpcMethod: string, message: string): (r: Option<Reported>)
    ensures r.None? <==> cb.None?
  {
    ReportError(cb, ParseError, rpcMethod, message)
  }

  // ---------------------------------------------------------------------
  // Properties
  // ---------------------------------------------------------------------

  /** report_error delivers exactly what it was given, the code defaulting to 0. */
  lemma ReportErrorDelivers(cb: nat, kind: ErrorType, rpcMethod: string, message: string, code: int)
    ensures ReportError(Some(cb), kind, rpcMethod, message) == Some(Reported(cb, MoonrakerError(kind, 0, message, rpcMethod)))
    ensures ReportError(Some(cb), kind, rpcMethod, message, code).value.error.code == code
  {
  }

  /** 404 is "file not found", 403 "permission denied", anything else
      unknown; the status is kept as the code, the method verbatim, and the
      message names the status. */
  lemma HttpErrorMapping(cb: nat, status: nat, rpcMethod: string, message: string)
    ensures var e := ReportHttpError(Some(cb), status, rpcMethod, message).value.error;
      (e.kind == FileNotFound <==> status == 404) &&
      (e.kind == PermissionDenied <==> status == 403) &&
      (e.kind == Unknown <==> status != 404 && status != 403) &&
      e.code == status && e.rpcMethod == rpcMethod &&
      Contains(e.message, NatToString(status)) && Contains(e.message, message)
  {
    var m := HttpMessage(status, message);
    var digits := NatToString(status);
    assert m[5..][..|digits|] == digits;
    assert IsPrefix(digits, m[5..]);
    var tail := |m| - |message|;
    assert m[tail..] == message;
    assert IsPrefix(message, m[tail..]);
  }

  /** The connection helper passes method and message through unchanged;
      the parse helper passes the method through and its message holds the
      given text. */
  lemma ConnectionAndParseErrors(cb: nat, rpcMethod: string, message: string)
    ensures ReportConnectionError(Some(cb), rpcMethod, message).value.error == MoonrakerError(ConnectionLost, 0, message, rpcMethod)
    ensures var e := ReportParseError(Some(cb), rpcMethod, message).value.error;
      e.kind == ParseError && e.rpcMethod == rpcMethod && Contains(e.message, message)
  {
    assert IsPrefix(message, message[0..]);
  }

  /** With a null callback no helper reports anything. */
  lemma NullCallbackIsSafe(kind: ErrorType, status: nat, rpcMethod: string, message: string, code: int)
    ensures ReportError(None, kind, rpcMethod, message, code) == None
    ensures ReportHttpError(None, status, rpcMethod, message) == None
    ensures ReportConnectionError(None, rpcMethod, message) == None
    ensures ReportParseError(None, rpcMethod, message) == None
  {
  }
}
