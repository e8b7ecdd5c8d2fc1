/** The connection-tracking Moonraker client used by the unit tests: it
    records the URL it was asked to connect to and the methods sent, and
    connects or disconnects only when the test says so. */
module ClientMock {
  import opened Common
  import opened Json

  /** A callback by identity; None is an empty std::function. */
  type Callback = Option<nat>

  /** The invocations of a callback that is called when set. */
  function CallIfSet(cb: Callback): (r: seq<nat>)
    ensures |r| <= 1 && (r != [] <==> cb.Some?) && (cb.Some? ==> r == [cb.value])
  {
    if cb.Some? then [cb.value] else []
  }

  class MoonrakerClientMock {
    var connectedCallback: Callback
    var disconnectedCallback: Callback
    var lastUrl: string
    var rpcMethods: seq<string>
    var connected: bool
    /** The callbacks invoked so far, in order; what they do is the test's
        own code. */
    var fired: seq<nat>

    /** The state `reset` leaves. */
    predicate IsReset()
      reads this
    {
      connectedCallback.None? && disconnectedCallback.None? && lastUrl == "" && rpcMethods == [] && !connected
    }

    /** A fresh mock is in the reset state. */
    constructor()
      ensures IsReset() && fired == []
    {
      connectedCallback, disconnectedCallback := None, None;
      lastUrl, rpcMethods, connected := "", [], false;
      fired := [];
    }

    /** Stores the URL and both callbacks and succeeds; it neither connects
        nor calls anything. */
    method Connect(url: string, onConnected: Callback, onDisconnected: Callback) returns (r: int)
      modifies this
      ensures r == 0
      ensures lastUrl == url && connectedCallback == onConnected && disconnectedCallback == onDisconnected
      ensures connected == old(connected) && rpcMethods == old(rpcMethods) && fired == old(fired)
    {
      lastUrl := url;
      connectedCallback := onConnected;
      disconnectedCallback := onDisconnected;
      r := 0;
    }

    /** Both send_jsonrpc overloads: the method is recorded, in call order,
        and the parameters and the callback are ignored. */
    method SendJsonRpc(rpcMethod: string, params: Json, cb: Callback) returns (r: int)
      modifies this
      ensures r == 0 && rpcMethods == old(rpcMethods) + [rpcMethod]
      ensures connected == old(connected) && lastUrl == old(lastUrl) && fired == old(fired)
      ensures connectedCallback == old(connectedCallback) && disconnectedCallback == old(disconnectedCallback)
    {
      rpcMethods := rpcMethods + [rpcMethod];
      r := 0;
    }

    /** Succeeds and records nothing. */
    method GcodeScript(gcode: string) returns (r: int)
      ensures r == 0
    {
      r := 0;
    }

    /** Does nothing; the completion callback is never called. */
    method DiscoverPrinter(onComplete: Callback)
    {
    }

    function IsConnected(): bool
      reads this
    {
      connected
    }

    /** The test simulates a successful connection. */
    method TriggerConnected()
      modifies this
      ensures connected && fired == old(fired) + CallIfSet(connectedCallback)
      ensures connectedCallback == old(connectedCallback) && disconnectedCallback == old(disconnectedCallback)
      ensures lastUrl == old(lastUrl) && rpcMethods == old(rpcMethods)
    {
      connected := true;
      if connectedCallback.Some? {
        fired := fired + [connectedCallback.value];
      }
    }

    /** The test simulates a lost or failed connection. */
    method TriggerDisconnected()
      modifies this
      ensures !connected && fired == old(fired) + CallIfSet(disconnectedCallback)
      ensures connectedCallback == old(connectedCallback) && disconnectedCallback == old(disconnectedCallback)
      ensures lastUrl == old(lastUrl) && rpcMethods == old(rpcMethods)
    {
      connected := false;
      if disconnectedCallback.Some? {
        fired := fired + [disconnectedCallback.value];
      }
    }

    /** Forgets the callbacks, the URL and the methods, and disconnects
        without calling anything. */
    method Reset()
      modifies this
      ensures IsReset() && fired == old(fired)
    {
      connectedCallback := None;
      disconnectedCallback := None;
      lastUrl := "";
      rpcMethods := [];
      connected := false;
    }
  }

  /** The flow of the example test: connecting stores the callbacks, and a
      simulated connection then makes the mock connected and calls the
      connect callback exactly once. */
  method ConnectFlow(c: MoonrakerClientMock, url: string, onConnected: nat, onDisconnected: nat)
    modifies c
    ensures c.connected && c.lastUrl == url && c.fired == old(c.fired) + [onConnected]
  {
    var r := c.Connect(url, Some(onConnected), Some(onDisconnected));
    c.TriggerConnected();
  }
}
