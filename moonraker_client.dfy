/** The JSON-RPC bookkeeping of the Moonraker WebSocket client: a wrapping
    32-bit request-id counter, an id-to-callback table for one-shot replies,
    a list of general notification callbacks, and a method-to-(handler-name
    -to-callback) table consulted for every inbound notification.

    Callbacks are identified by opaque ids; invoking one is recorded as an
    event, and the frames handed to the socket are recorded in an outbox. */
module MoonrakerClient {
  import opened Common
  import opened Json

  /** Identifies one registered std::function. */
  type CallbackId = nat

  /** What routing an inbound frame does, in the order it does it. */
  datatype Event =
    | ReplyInvoked(id: nat, cb: CallbackId, frame: Json)
    | NotifyInvoked(cb: CallbackId, frame: Json)
    | KlippyDisconnected
    | KlippyReady
    | HandlerInvoked(rpcMethod: string, handler: string, cb: CallbackId, frame: Json)

  /** handler name -> callback, in handler-name order (the inner std::map). */
  type Handlers = seq<(string, CallbackId)>

  /** method -> handlers, in method order (the outer std::map). */
  type MethodTable = seq<(string, Handlers)>

  predicate ValidMethodTable(t: MethodTable)
  {
    KeysAscending(t) && forall i :: 0 <= i < |t| ==> KeysAscending(t[i].1)
  }

  const StatusUpdate := "notify_status_update"
  const FilelistChanged := "notify_filelist_changed"
  const KlippyDisconnectedMethod := "notify_klippy_disconnected"
  const KlippyReadyMethod := "notify_klippy_ready"
  const GcodeScriptMethod := "printer.gcode.script"

  // ---------------------------------------------------------------------
  // Outbound envelopes
  // ---------------------------------------------------------------------

  /** The request id that follows `id`: post-increment of a uint32_t. */
  function NextId(id: nat): (r: nat)
    requires id < U32
    ensures r < U32
    ensures id + 1 < U32 ==> r == id + 1
    ensures id + 1 == U32 ==> r == 0
  {
    (id + 1) % U32
  }

  /** The id after `k` sends starting from `id`. */
  function IdAfter(id: nat, k: nat): (r: nat)
    requires id < U32
    ensures r < U32
  {
    if k == 0 then id else NextId(IdAfter(id, k - 1))
  }

  lemma {:induction false} IdAfterIsModular(id: nat, k: nat)
    requires id < U32
    ensures IdAfter(id, k) == (id + k) % U32
  {
    if k > 0 {
      IdAfterIsModular(id, k - 1);
    }
  }

  /** Ids handed out by consecutive sends repeat only after 2^32 sends. */
  lemma IdsDistinctWithinWrap(id: nat, a: nat, b: nat)
    requires id < U32 && a < b < a + U32
    ensures IdAfter(id, a) != IdAfter(id, b)
    ensures IdAfter(id, U32) == id
  {
    IdAfterIsModular(id, a);
    IdAfterIsModular(id, b);
    IdAfterIsModular(id, U32);
  }

  /** A request the client handed to the socket; Envelope gives its wire form. */
  datatype Request = Request(rpcMethod: string, params: Option<Json>, id: nat)

  /** The JSON-RPC 2.0 request object, filled member by member as the
      client does: "jsonrpc", "method", then "params" when given, then "id". */
  function Envelope(rpcMethod: string, params: Option<Json>, id: nat): (e: Json)
    ensures e.JObj? && WellFormedObject(e)
    ensures Member(e, "jsonrpc") == Some(JStr("2.0"))
    ensures Member(e, "method") == Some(JStr(rpcMethod))
    ensures Member(e, "id") == Some(JNum(id))
    ensures Member(e, "params") == params
  {
    var head := EnvelopeHead(rpcMethod);
    var withParams := if params.Some? then Put(head, "params", params.value) else head;
    assert "params" != "jsonrpc" && "params" != "method";
    assert "id" != "jsonrpc" && "id" != "method" && "id" != "params";
    JObj(Put(withParams, "id", JNum(id)))
  }

  /** The members every envelope starts with. */
  function EnvelopeHead(rpcMethod: string): (m: seq<(string, Json)>)
    ensures KeysAscending(m) && Lookup(m, "params") == None
    ensures Lookup(m, "jsonrpc") == Some(JStr("2.0")) && Lookup(m, "method") == Some(JStr(rpcMethod))
  {
    var m0: seq<(string, Json)> := [];
    assert Lookup(m0, "params") == None;
    assert "method" != "jsonrpc" && "params" != "jsonrpc" && "params" != "method";
    Put(Put(m0, "jsonrpc", JStr("2.0")), "method", JStr(rpcMethod))
  }

  /** The params of gcode_script: {"script": gcode}. */
  function ScriptParams(gcode: string): (p: Json)
    ensures p.JObj? && WellFormedObject(p)
    ensures KeySet(p.members) == {"script"} && Member(p, "script") == Some(JStr(gcode))
  {
    JObj(Put([], "script", JStr(gcode)))
  }

  // ---------------------------------------------------------------------
  // Inbound routing, as a pure step
  // ---------------------------------------------------------------------

  /** The callback tables routing reads. */
  datatype Tables = Tables(callbacks: map<nat, CallbackId>, notify: seq<CallbackId>, methods: MethodTable)

  /** The outcome of routing one frame: the new one-shot table, the callbacks
      run in order, and whether a get<>() threw part-way. */
  datatype Routed = Routed(callbacks: map<nat, CallbackId>, events: seq<Event>, threw: bool)

  /** The "id" step: invoke and erase the one-shot callback stored under the id. */
  function ReplyStep(callbacks: map<nat, CallbackId>, j: Json): Routed
  {
    if !Has(j, "id") then Routed(callbacks, [], false)
    else
      match AsUnsigned(Member(j, "id").value, U32)
      case Err(_) => Routed(callbacks, [], true)
      case Ok(id) =>
        if id in callbacks then Routed(callbacks - {id}, [ReplyInvoked(id, callbacks[id], j)], false)
        else Routed(callbacks, [], false)
  }

  function NotifyAll(notify: seq<CallbackId>, j: Json): (es: seq<Event>)
    ensures |es| == |notify| && forall i :: 0 <= i < |notify| ==> es[i] == NotifyInvoked(notify[i], j)
  {
    seq(|notify|, i requires 0 <= i < |notify| => NotifyInvoked(notify[i], j))
  }

  /** The fixed reaction to the four methods the client knows. */
  function BuiltinEvents(rpcMethod: string, notify: seq<CallbackId>, j: Json): seq<Event>
  {
    if rpcMethod == StatusUpdate || rpcMethod == FilelistChanged then NotifyAll(notify, j)
    else if rpcMethod == KlippyDisconnectedMethod then [KlippyDisconnected]
    else if rpcMethod == KlippyReadyMethod then [KlippyReady]
    else []
  }

  function HandlerEvents(rpcMethod: string, hs: Handlers, j: Json): (es: seq<Event>)
    ensures |es| == |hs| && forall i :: 0 <= i < |hs| ==> es[i] == HandlerInvoked(rpcMethod, hs[i].0, hs[i].1, j)
  {
    seq(|hs|, i requires 0 <= i < |hs| => HandlerInvoked(rpcMethod, hs[i].0, hs[i].1, j))
  }

  function RegisteredHandlers(methods: MethodTable, rpcMethod: string): Handlers
  {
    match Lookup(methods, rpcMethod)
    case Some(hs) => hs
    case None => []
  }

  /** The "method" step. */
  function MethodStep(notify: seq<CallbackId>, methods: MethodTable, j: Json): (r: Option<seq<Event>>)
  {
    if !Has(j, "method") then Some([])
    else
      match AsString(Member(j, "method").value)
      case Err(_) => None
      case Ok(rpcMethod) =>
        Some(BuiltinEvents(rpcMethod, notify, j) + HandlerEvents(rpcMethod, RegisteredHandlers(methods, rpcMethod), j))
  }

  /** onmessage: `frame` is None when json::parse failed. */
  function Route(t: Tables, frame: Option<Json>): (r: Routed)
    ensures frame.None? ==> r == Routed(t.callbacks, [], false)
    ensures r.callbacks.Keys <= t.callbacks.Keys
    ensures forall id :: id in r.callbacks ==> r.callbacks[id] == t.callbacks[id]
  {
    match frame
    case None => Routed(t.callbacks, [], false)
    case Some(j) =>
      var reply := ReplyStep(t.callbacks, j);
      if reply.threw then reply
      else
        match MethodStep(t.notify, t.methods, j)
        case None => Routed(reply.callbacks, reply.events, true)
        case Some(es) => Routed(reply.callbacks, reply.events + es, false)
  }

  lemma ConcatAssoc<T>(a: seq<T>, b: seq<T>, c: seq<T>)
    ensures (a + b) + c == a + (b + c)
  {
  }

  /** Route is the "id" step followed, unless it threw, by the "method" step. */
  lemma RouteSteps(t: Tables, j: Json)
    ensures var reply := ReplyStep(t.callbacks, j);
      var ms := MethodStep(t.notify, t.methods, j);
      Route(t, Some(j)) ==
        if reply.threw then reply
        else Routed(reply.callbacks, reply.events + (if ms.Some? then ms.value else []), ms.None?)
  {
  }

  /** The id a frame carries, as get<uint32_t>() reads it. */
  function FrameId(j: Json): Option<nat>
  {
    if Has(j, "id") && AsUnsigned(Member(j, "id").value, U32).Ok? then Some(AsUnsigned(Member(j, "id").value, U32).value)
    else None
  }

  function CountReplies(es: seq<Event>): nat
  {
    if |es| == 0 then 0 else (if es[0].ReplyInvoked? then 1 else 0) + CountReplies(es[1..])
  }

  lemma {:induction false} CountRepliesAppend(a: seq<Event>, b: seq<Event>)
    ensures CountReplies(a + b) == CountReplies(a) + CountReplies(b)
  {
    if |a| == 0 {
      assert a + b == b;
    } else {
      assert (a + b)[0] == a[0];
      assert (a + b)[1..] == a[1..] + b;
      CountRepliesAppend(a[1..], b);
    }
  }

  lemma {:induction false} NoRepliesIn(es: seq<Event>)
    requires forall i :: 0 <= i < |es| ==> !es[i].ReplyInvoked?
    ensures CountReplies(es) == 0
  {
    if |es| > 0 {
      NoRepliesIn(es[1..]);
    }
  }

  /** A frame whose id has a one-shot callback runs it exactly once, first,
      and removes it; a frame with an unknown id leaves the table as it was. */
  lemma ReplyFiresAtMostOnce(t: Tables, j: Json)
    ensures var r := Route(t, Some(j));
      CountReplies(r.events) <= 1 &&
      (FrameId(j).Some? && FrameId(j).value in t.callbacks ==>
        var id := FrameId(j).value;
        r.callbacks == t.callbacks - {id} && |r.events| > 0 &&
        r.events[0] == ReplyInvoked(id, t.callbacks[id], j) && CountReplies(r.events) == 1) &&
      (FrameId(j).None? || FrameId(j).value !in t.callbacks ==>
        r.callbacks == t.callbacks && CountReplies(r.events) == 0)
  {
    var reply := ReplyStep(t.callbacks, j);
    var m := MethodStep(t.notify, t.methods, j);
    if m.Some? {
      var es := m.value;
      NoRepliesIn(es);
      CountRepliesAppend(reply.events, es);
    }
  }

  /** A repeated reply is a no-op on the one-shot table. */
  lemma DuplicateReplyIsNoOp(t: Tables, j: Json)
    requires FrameId(j).Some?
    ensures var first := Route(t, Some(j));
      var second := Route(Tables(first.callbacks, t.notify, t.methods), Some(j));
      second.callbacks == first.callbacks && CountReplies(second.events) == 0
  {
    var first := Route(t, Some(j));
    ReplyFiresAtMostOnce(t, j);
    ReplyFiresAtMostOnce(Tables(first.callbacks, t.notify, t.methods), j);
  }

  /** General notification callbacks run, all of them in registration order,
      exactly for the status-update and file-list notifications. */
  lemma NotifyRouting(t: Tables, j: Json, rpcMethod: string)
    requires !Has(j, "id") && Member(j, "method") == Some(JStr(rpcMethod))
    ensures var r := Route(t, Some(j));
      !r.threw && r.callbacks == t.callbacks &&
      (rpcMethod == StatusUpdate || rpcMethod == FilelistChanged ==>
        r.events[..|t.notify|] == NotifyAll(t.notify, j)) &&
      (rpcMethod != StatusUpdate && rpcMethod != FilelistChanged ==>
        forall i :: 0 <= i < |r.events| ==> !r.events[i].NotifyInvoked?)
  {
    var r := Route(t, Some(j));
    var b := BuiltinEvents(rpcMethod, t.notify, j);
    var h := HandlerEvents(rpcMethod, RegisteredHandlers(t.methods, rpcMethod), j);
    assert r.events == b + h;
  }

  /** notify_klippy_disconnected and notify_klippy_ready reach the connection
      callbacks, and then the handlers registered for exactly that method run,
      after everything else. */
  lemma MethodRouting(t: Tables, j: Json, rpcMethod: string)
    requires !Has(j, "id") && Member(j, "method") == Some(JStr(rpcMethod))
    ensures var r := Route(t, Some(j));
      var hs := RegisteredHandlers(t.methods, rpcMethod);
      var pre := |r.events| - |hs|;
      !r.threw && 0 <= pre && r.events[pre..] == HandlerEvents(rpcMethod, hs, j) &&
      (rpcMethod == KlippyDisconnectedMethod ==> r.events[..pre] == [KlippyDisconnected]) &&
      (rpcMethod == KlippyReadyMethod ==> r.events[..pre] == [KlippyReady]) &&
      (forall i :: 0 <= i < |r.events| && r.events[i].HandlerInvoked? ==> r.events[i].rpcMethod == rpcMethod)
  {
    var r := Route(t, Some(j));
    var b := BuiltinEvents(rpcMethod, t.notify, j);
    var h := HandlerEvents(rpcMethod, RegisteredHandlers(t.methods, rpcMethod), j);
    assert r.events == b + h;
    assert r.events[|b|..] == h;
    assert r.events[..|b|] == b;
  }

  /** The handlers of one method run in ascending handler-name order, each
      name once. */
  lemma HandlersInNameOrder(methods: MethodTable, rpcMethod: string, j: Json)
    requires ValidMethodTable(methods)
    ensures var es := HandlerEvents(rpcMethod, RegisteredHandlers(methods, rpcMethod), j);
      forall a, b :: 0 <= a < b < |es| ==> StrLt(es[a].handler, es[b].handler)
  {
    match Lookup(methods, rpcMethod) {
      case Some(v) =>
        var i :| 0 <= i < |methods| && methods[i] == (rpcMethod, v);
        assert KeysAscending(methods[i].1);
      case None =>
    }
  }

  /** register_method_callback: add under (method, handler) unless present. */
  function RegisterInTable(t: MethodTable, rpcMethod: string, handler: string, cb: CallbackId): (r: MethodTable)
    requires ValidMethodTable(t)
    ensures ValidMethodTable(r)
  {
    match Lookup(t, rpcMethod)
    case None =>
      var r := InsertNew(t, rpcMethod, [(handler, cb)]);
      NestedAscending(t, r, (rpcMethod, [(handler, cb)]));
      r
    case Some(hs) =>
      assert (rpcMethod, hs) in t;
      var r := Put(t, rpcMethod, InsertNew(hs, handler, cb));
      NestedAscending(t, r, (rpcMethod, InsertNew(hs, handler, cb)));
      r
  }

  lemma NestedAscending(t: MethodTable, r: MethodTable, p: (string, Handlers))
    requires ValidMethodTable(t) && KeysAscending(r) && KeysAscending(p.1)
    requires forall q :: q in r ==> q == p || q in t
    ensures ValidMethodTable(r)
  {
    forall i | 0 <= i < |r| ensures KeysAscending(r[i].1) {
      assert r[i] in r;
      if r[i] != p {
        var q :| 0 <= q < |t| && t[q] == r[i];
      }
    }
  }

  /** Registration never overwrites: an existing (method, handler) keeps its
      callback, a new one is added, and nothing else changes. */
  lemma RegisterKeepsExisting(t: MethodTable, rpcMethod: string, handler: string, cb: CallbackId)
    requires ValidMethodTable(t)
    ensures var r := RegisterInTable(t, rpcMethod, handler, cb);
      var before := Lookup(RegisteredHandlers(t, rpcMethod), handler);
      Lookup(RegisteredHandlers(r, rpcMethod), handler) == (if before.Some? then before else Some(cb)) &&
      KeySet(RegisteredHandlers(r, rpcMethod)) == KeySet(RegisteredHandlers(t, rpcMethod)) + {handler} &&
      (forall h :: h != handler ==> Lookup(RegisteredHandlers(r, rpcMethod), h) == Lookup(RegisteredHandlers(t, rpcMethod), h)) &&
      (forall m :: m != rpcMethod ==> Lookup(r, m) == Lookup(t, m))
  {
    match Lookup(t, rpcMethod) {
      case None =>
        assert RegisteredHandlers(t, rpcMethod) == [];
        assert Lookup([(handler, cb)], handler) == Some(cb);
        KeySetCons((handler, cb), []);
      case Some(hs) =>
        assert (rpcMethod, hs) in t;
    }
  }

  // ---------------------------------------------------------------------
  // The client object
  // ---------------------------------------------------------------------

  class Client {
    var requestId: nat
    var callbacks: map<nat, CallbackId>
    var notifyCallbacks: seq<CallbackId>
    var methodCallbacks: MethodTable
    /** Requests handed to the socket, oldest first; each went out as
        Envelope(rpcMethod, params, id). */
    ghost var outbox: seq<Request>
    /** Callbacks run by routing, oldest first. */
    ghost var trace: seq<Event>

    ghost predicate Valid()
      reads this
    {
      requestId < U32 && ValidMethodTable(methodCallbacks)
    }

    function CurrentTables(): Tables
      reads this
    {
      Tables(callbacks, notifyCallbacks, methodCallbacks)
    }

    constructor ()
      ensures Valid()
      ensures requestId == 0 && callbacks == map[] && notifyCallbacks == [] && methodCallbacks == []
      ensures outbox == [] && trace == []
    {
      requestId := 0;
      callbacks := map[];
      notifyCallbacks := [];
      methodCallbacks := [];
      outbox := [];
      trace := [];
    }

    /** Builds the envelope with the current id, consumes the id and sends;
        `sent` stands for what the socket's send() returns. */
    method SendJsonRpc(rpcMethod: string, sent: int) returns (r: int)
      requires Valid()
      modifies this
      ensures Valid()
      ensures r == sent
      ensures requestId == NextId(old(requestId))
      ensures outbox == old(outbox) + [Request(rpcMethod, None, old(requestId))]
      ensures callbacks == old(callbacks) && notifyCallbacks == old(notifyCallbacks)
      ensures methodCallbacks == old(methodCallbacks) && trace == old(trace)
    {
      var rpc := Request(rpcMethod, None, requestId);
      requestId := NextId(requestId);
      outbox := outbox + [rpc];
      r := sent;
    }

    method SendJsonRpcWithParams(rpcMethod: string, params: Json, sent: int) returns (r: int)
      requires Valid()
      modifies this
      ensures Valid()
      ensures r == sent
      ensures requestId == NextId(old(requestId))
      ensures outbox == old(outbox) + [Request(rpcMethod, Some(params), old(requestId))]
      ensures callbacks == old(callbacks) && notifyCallbacks == old(notifyCallbacks)
      ensures methodCallbacks == old(methodCallbacks) && trace == old(trace)
    {
      var rpc := Request(rpcMethod, Some(params), requestId);
      requestId := NextId(requestId);
      outbox := outbox + [rpc];
      r := sent;
    }

    /** Registers `cb` under the current id and sends; refuses with -1, and
        changes nothing, when that id already has a callback. */
    method SendJsonRpcWithCallback(rpcMethod: string, params: Json, cb: CallbackId, sent: int) returns (r: int)
      requires Valid()
      modifies this
      ensures Valid()
      ensures old(requestId) in old(callbacks) ==>
        r == -1 && requestId == old(requestId) && callbacks == old(callbacks) && outbox == old(outbox)
      ensures old(requestId) !in old(callbacks) ==>
        r == sent && callbacks == old(callbacks)[old(requestId) := cb] &&
        requestId == NextId(old(requestId)) &&
        outbox == old(outbox) + [Request(rpcMethod, Some(params), old(requestId))]
      ensures notifyCallbacks == old(notifyCallbacks) && methodCallbacks == old(methodCallbacks)
      ensures trace == old(trace)
    {
      var id := requestId;
      if id !in callbacks {
        callbacks := callbacks[id := cb];
        r := SendJsonRpcWithParams(rpcMethod, params, sent);
      } else {
        r := -1;
      }
    }

    method GcodeScript(gcode: string, sent: int) returns (r: int)
      requires Valid()
      modifies this
      ensures Valid()
      ensures r == sent
      ensures requestId == NextId(old(requestId))
      ensures outbox == old(outbox) + [Request(GcodeScriptMethod, Some(ScriptParams(gcode)), old(requestId))]
      ensures callbacks == old(callbacks) && notifyCallbacks == old(notifyCallbacks)
      ensures methodCallbacks == old(methodCallbacks) && trace == old(trace)
    {
      r := SendJsonRpcWithParams(GcodeScriptMethod, ScriptParams(gcode), sent);
    }

    method RegisterNotifyUpdate(cb: CallbackId)
      requires Valid()
      modifies this
      ensures Valid()
      ensures notifyCallbacks == old(notifyCallbacks) + [cb]
      ensures requestId == old(requestId) && callbacks == old(callbacks)
      ensures methodCallbacks == old(methodCallbacks) && outbox == old(outbox) && trace == old(trace)
    {
      notifyCallbacks := notifyCallbacks + [cb];
    }

    method RegisterMethodCallback(rpcMethod: string, handler: string, cb: CallbackId)
      requires Valid()
      modifies this
      ensures Valid()
      ensures methodCallbacks == RegisterInTable(old(methodCallbacks), rpcMethod, handler, cb)
      ensures requestId == old(requestId) && callbacks == old(callbacks)
      ensures notifyCallbacks == old(notifyCallbacks) && outbox == old(outbox) && trace == old(trace)
    {
      var existing := Lookup(methodCallbacks, rpcMethod);
      if existing.None? {
        NestedAscending(methodCallbacks, InsertNew(methodCallbacks, rpcMethod, [(handler, cb)]), (rpcMethod, [(handler, cb)]));
        methodCallbacks := InsertNew(methodCallbacks, rpcMethod, [(handler, cb)]);
      } else {
        assert (rpcMethod, existing.value) in methodCallbacks;
        var handlers := InsertNew(existing.value, handler, cb);
        NestedAscending(methodCallbacks, Put(methodCallbacks, rpcMethod, handlers), (rpcMethod, handlers));
        methodCallbacks := Put(methodCallbacks, rpcMethod, handlers);
      }
    }

    /** onmessage: routes one frame (None when it did not parse), running
        the one-shot, notification and per-method callbacks as Route says. */
    method OnMessage(frame: Option<Json>)
      requires Valid()
      modifies this
      ensures Valid()
      ensures callbacks == Route(old(CurrentTables()), frame).callbacks
      ensures trace == old(trace) + Route(old(CurrentTables()), frame).events
      ensures requestId == old(requestId) && notifyCallbacks == old(notifyCallbacks)
      ensures methodCallbacks == old(methodCallbacks) && outbox == old(outbox)
    {
      if frame.None? {
        return;
      }
      var j := frame.value;
      ghost var t := CurrentTables();
      ghost var reply := ReplyStep(t.callbacks, j);
      ghost var ms := MethodStep(t.notify, t.methods, j);
      RouteSteps(t, j);
      var threw := RunReply(j);
      if !threw {
        ghost var mid := trace;
        threw := RunMethodStep(j);
        ghost var rest := if ms.Some? then ms.value else [];
        ConcatAssoc(old(trace), reply.events, rest);
      }
    }

    /** The "method" step of onmessage. */
    method RunMethodStep(j: Json) returns (threw: bool)
      modifies this
      ensures var ms := MethodStep(notifyCallbacks, methodCallbacks, j);
        threw == ms.None? && trace == old(trace) + (if ms.Some? then ms.value else [])
      ensures requestId == old(requestId) && notifyCallbacks == old(notifyCallbacks) && callbacks == old(callbacks)
      ensures methodCallbacks == old(methodCallbacks) && outbox == old(outbox)
    {
      threw := false;
      if Has(j, "method") {
        var m := AsString(Member(j, "method").value);
        if m.Err? {
          threw := true;
          return;
        }
        RunBuiltin(m.value, j);
        RunHandlers(m.value, j);
      }
    }

    /** The "id" step of onmessage. */
    method RunReply(j: Json) returns (threw: bool)
      modifies this
      ensures var r := ReplyStep(old(callbacks), j);
        callbacks == r.callbacks && trace == old(trace) + r.events && threw == r.threw
      ensures requestId == old(requestId) && notifyCallbacks == old(notifyCallbacks)
      ensures methodCallbacks == old(methodCallbacks) && outbox == old(outbox)
    {
      threw := false;
      if Has(j, "id") {
        var id := AsUnsigned(Member(j, "id").value, U32);
        if id.Err? {
          threw := true;
          return;
        }
        if id.value in callbacks {
          trace := trace + [ReplyInvoked(id.value, callbacks[id.value], j)];
          callbacks := callbacks - {id.value};
        }
      }
    }

    /** The reaction to the four methods the client knows. */
    method RunBuiltin(rpcMethod: string, j: Json)
      modifies this
      ensures trace == old(trace) + BuiltinEvents(rpcMethod, notifyCallbacks, j)
      ensures requestId == old(requestId) && notifyCallbacks == old(notifyCallbacks) && callbacks == old(callbacks)
      ensures methodCallbacks == old(methodCallbacks) && outbox == old(outbox)
    {
      if rpcMethod == StatusUpdate || rpcMethod == FilelistChanged {
        ghost var run := trace;
        var i := 0;
        while i < |notifyCallbacks|
          invariant 0 <= i <= |notifyCallbacks|
          invariant run == old(trace) + NotifyAll(notifyCallbacks[..i], j)
        {
          run := run + [NotifyInvoked(notifyCallbacks[i], j)];
          i := i + 1;
          assert NotifyAll(notifyCallbacks[..i], j) == NotifyAll(notifyCallbacks[..i - 1], j) + [NotifyInvoked(notifyCallbacks[i - 1], j)];
        }
        assert notifyCallbacks[..i] == notifyCallbacks;
        trace := run;
      } else if rpcMethod == KlippyDisconnectedMethod {
        trace := trace + [KlippyDisconnected];
      } else if rpcMethod == KlippyReadyMethod {
        trace := trace + [KlippyReady];
      }
    }

    /** Runs every handler registered for exactly `rpcMethod`, in map order. */
    method RunHandlers(rpcMethod: string, j: Json)
      modifies this
      ensures trace == old(trace) + HandlerEvents(rpcMethod, RegisteredHandlers(methodCallbacks, rpcMethod), j)
      ensures requestId == old(requestId) && notifyCallbacks == old(notifyCallbacks) && callbacks == old(callbacks)
      ensures methodCallbacks == old(methodCallbacks) && outbox == old(outbox)
    {
      var found := Lookup(methodCallbacks, rpcMethod);
      if found.Some? {
        var hs := found.value;
        ghost var run := trace;
        var k := 0;
        while k < |hs|
          invariant 0 <= k <= |hs|
          invariant run == old(trace) + HandlerEvents(rpcMethod, hs[..k], j)
        {
          run := run + [HandlerInvoked(rpcMethod, hs[k].0, hs[k].1, j)];
          k := k + 1;
          assert HandlerEvents(rpcMethod, hs[..k], j) == HandlerEvents(rpcMethod, hs[..k - 1], j) + [HandlerInvoked(rpcMethod, hs[k - 1].0, hs[k - 1].1, j)];
        }
        assert hs[..k] == hs;
        trace := run;
      }
    }
  }
}
