/** The WiFi transport: messages relayed by the server arrive over an
    event stream as parsed JSON values and are dispatched on their `type`. */
module WiFiAdapter {
  import opened Dial
  import opened Json

  /** The object handed to the dial-change callback: `position` and `delta`
      copied from the message as they are (the timestamp is left out).
      `position` is `None` when the message has none. */
  datatype WifiDial = WifiDial(position: Option<JsonValue>, delta: JsonValue)

  /** Which callback a message leads to. `Throws` is the TypeError raised
      by reading `type` off `null`, which the message listener catches and
      logs, as it does a message that is not JSON at all. */
  datatype Action = NoCallback | DialCallback(dial: WifiDial) | ClickCallback | Throws

  /** `handleMessage(data)`: dispatch on `data.type` with strict equality. */
  function HandleMessage(data: JsonValue, hasDialHandler: bool, hasClickHandler: bool): (a: Action)
    ensures a.Throws? <==> data == JNull
    ensures a.DialCallback? <==>
      && data != JNull && Property(data, "type") == Some(JString("dial"))
      && hasDialHandler && Property(data, "delta").Some?
    ensures a.DialCallback? ==>
      a.dial == WifiDial(Property(data, "position"), Property(data, "delta").value)
    ensures a == ClickCallback <==>
      data != JNull && Property(data, "type") == Some(JString("click")) && hasClickHandler
  {
    if data == JNull then Throws
    else
      match Property(data, "type")
      case Some(JString(t)) =>
        if t == "dial" then
          var delta := Property(data, "delta");
          if hasDialHandler && delta.Some? then
            DialCallback(WifiDial(Property(data, "position"), delta.value))
          else NoCallback
        else if t == "click" then
          if hasClickHandler then ClickCallback else NoCallback
        else NoCallback
      case _ => NoCallback
  }

  /** A `connected` greeting, a message of any other type, or one without a
      type fires no callback. */
  lemma {:induction false} OtherTypesAreInert(data: JsonValue, hasDialHandler: bool, hasClickHandler: bool)
    requires data != JNull
    requires Property(data, "type") != Some(JString("dial"))
    requires Property(data, "type") != Some(JString("click"))
    ensures HandleMessage(data, hasDialHandler, hasClickHandler) == NoCallback
  {
  }

  /** Unlike the serial and Bluetooth trackers, a zero delta is not
      suppressed: it is forwarded as it came. */
  lemma ZeroDeltaForwarded(position: JsonValue, hasClickHandler: bool)
    ensures
      var data := JObject(map["type" := JString("dial"), "position" := position, "delta" := JNumber(0.0)]);
      HandleMessage(data, true, hasClickHandler) == DialCallback(WifiDial(Some(position), JNumber(0.0)))
  {
    var data := JObject(map["type" := JString("dial"), "position" := position, "delta" := JNumber(0.0)]);
    assert Property(data, "type") == Some(JString("dial"));
    assert Property(data, "delta") == Some(JNumber(0.0));
  }

  /** What `getConnectionStatus()` returns. */
  datatype WifiStatus = WifiStatus(connected: bool, kind: string, endpoint: string)

  const EndpointPath := "/api/arduino"

  /** The WiFi adapter. `hasEventSource` stands for a non-null
      `eventSource`, the `has…Handler` flags for set callbacks. */
  class ArduinoWiFi {
    var hasEventSource: bool
    var isConnected: bool
    var hasDialHandler: bool
    var hasClickHandler: bool
    var lastPosition: int

    constructor ()
      ensures !hasEventSource && !isConnected && !hasDialHandler && !hasClickHandler
      ensures lastPosition == 0
    {
      hasEventSource, isConnected := false, false;
      hasDialHandler, hasClickHandler := false, false;
      lastPosition := 0;
    }

    /** `getConnectionStatus()`. */
    function GetConnectionStatus(): (s: WifiStatus)
      reads this
      ensures s.connected == isConnected
      ensures s.kind == "wifi" && s.endpoint == EndpointPath
    {
      WifiStatus(isConnected, "wifi", EndpointPath)
    }

    /** `connect()` opening the event source; the connection is reported
        later, through `OnOpen` or `OnError`. */
    method Connect()
      modifies this`hasEventSource
      ensures hasEventSource
    {
      hasEventSource := true;
    }

    /** The event source's `onopen`. */
    method OnOpen()
      modifies this`isConnected
      ensures isConnected && GetConnectionStatus() == WifiStatus(true, "wifi", EndpointPath)
    {
      isConnected := true;
    }

    /** The event source's `onerror`: the flag is cleared first, so the
        test that follows always finds it false and always rejects. */
    method OnError() returns (rejects: bool)
      modifies this`isConnected
      ensures !isConnected && rejects
    {
      isConnected := false;
      rejects := !isConnected;
    }

    /** The event source's `onmessage`: `parsed` is `JSON.parse(event.data)`,
        `None` when that throws. Nothing in the adapter changes. */
    method OnMessage(parsed: Option<JsonValue>) returns (a: Action)
      ensures parsed.None? ==> a == Throws
      ensures parsed.Some? ==> a == HandleMessage(parsed.value, hasDialHandler, hasClickHandler)
      ensures a.DialCallback? ==> hasDialHandler
      ensures a.ClickCallback? ==> hasClickHandler
    {
      if parsed.None? {
        return Throws;
      }
      a := HandleMessage(parsed.value, hasDialHandler, hasClickHandler);
    }

    /** `disconnect()`: closes and drops the event source, if any. The
        fields it writes end the same whatever they were, so a second call
        changes nothing. */
    method Disconnect()
      modifies this`hasEventSource, this`isConnected
      ensures !hasEventSource && !isConnected
      ensures GetConnectionStatus() == WifiStatus(false, "wifi", EndpointPath)
    {
      if hasEventSource {
        hasEventSource := false;
      }
      isConnected := false;
    }

    method SetDialChangeHandler(present: bool)
      modifies this`hasDialHandler
      ensures hasDialHandler == present
    {
      hasDialHandler := present;
    }

    method SetClickHandler(present: bool)
      modifies this`hasClickHandler
      ensures hasClickHandler == present
    {
      hasClickHandler := present;
    }
  }
}
