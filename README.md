# Arduino dial transports, modelled in Dafny

A rotary dial on an Arduino reaches a web application in one of three ways.
Each way has an adapter class in the browser, and all three hand the
application the same kind of rotation event:

- **Serial** (`ArduinoSerial`): text arrives in chunks. It is framed into
  lines. A line `DIAL:<integer>` gives an absolute reading, and the adapter
  turns it into a delta against `lastValue`.
- **Bluetooth Low Energy** (`ArduinoBluetooth`): a position characteristic
  carries a signed 32-bit little-endian reading. A click characteristic
  carries a one-byte flag. Readings become deltas against `lastPosition`.
- **WiFi** (`ArduinoWiFi`): the device POSTs JSON messages to the server's
  `/api/arduino` endpoint. The endpoint relays each message as a
  server-sent-events frame to every open GET stream. The adapter reads the
  stream and dispatches each message on its `type`.

The project has one module per source file, plus shared modules:

- `Dial`: the direction tag and `Option`.
- `Lines`: splitting text on `'\n'`.
- `JsText`: ECMAScript `trim` and `parseInt` without a radix, as sections
  22.1.3.32 and 19.2.5 of ECMA-262 define them.
- `Json`: parsed JSON values, `v[key]` and truthiness.

The adapters and the endpoint are classes whose methods update their fields
as the source does. The pure decoding and dispatch steps are functions.
Each method is proved against such a function:

- `ProcessLine` against `LineStep`;
- `Absorb` and `ReadAll` against `AbsorbStep`;
- `HandlePositionChange` against `PositionStep`;
- `OnMessage` against `HandleMessage`;
- `Post` against `Validate`, `Answer` and `Delivered`.

What is proved:

- **Serial framing:** the buffer never holds a '\n', and the text is
  exactly the lines passed on, each followed by '\n', then the new buffer.
  Framing does not depend on where the stream cuts the text.
- **Serial trackers:** the serial deltas telescope.
- **Bluetooth decoding:** `getInt32` and its encoding are inverses.
- **Bluetooth tracker:** its deltas telescope too, but the tracker moves
  only when an event is emitted.
- **Cleanup:** local and peer disconnects leave the same cleared state.
- **WiFi dispatch:** a WiFi `dial` message is forwarded as it came, a zero
  delta included.
- **Endpoint:** a POST delivers exactly one frame to each listener that
  does not fail, and deregisters exactly those that do.
- **Read-back:** a stream of frames reads back, as a receiver following the
  event-stream format of section 9.2 of the WHATWG HTML Living Standard
  would, the messages in the order they were sent.

Callbacks are represented by whether they are set. Where the source calls a
callback, the method returns the event it passes.

Browser and device interfaces are parameters of the methods:

- the port or device the user picks, and whether it opens;
- whether the reader's `cancel` and the port's `close` resolve;
- the decoded text chunks and the characteristic bytes;
- the parsed messages;
- which listener writes throw.

Neither the serial nor the Bluetooth adapter resets its last position on
`disconnect` or on a new `connect`:

- the serial code is at `src/utils/arduinoSerial.js:15-54`;
- the Bluetooth code is at `src/utils/arduinoBluetooth.js:25-74` and
  `150-157`.

The model follows the code: `Connect` keeps `lastValue` and `lastPosition`,
so the first reading after a reconnect is compared with the last value of
the previous session.

## Model

| member | source | states |
|---|---|---|
| Dial.DirectionOf | src/utils/arduinoSerial.js:108 | the direction is clockwise iff the delta is positive, counterclockwise otherwise |
| Lines.Split | src/utils/arduinoSerial.js:73-74 | `split('\n')` always gives at least one piece, so `pop` always has a fragment to return |
| Lines.SplitSpec | src/utils/arduinoSerial.js:73-74 | no piece of `split('\n')` holds a '\n'; the pieces before the last, each followed by '\n', then the last, are the text |
| Lines.TerminatedUnique | src/utils/arduinoSerial.js:73-74 | a text has only one way to be written as '\n'-terminated lines without '\n' followed by a fragment without '\n' |
| Lines.SplitTerminated | src/utils/arduinoSerial.js:73-74 | the lines kept by `split` and `pop` of such a text are those lines, and the popped fragment is that fragment |
| JsText.Trim | src/utils/arduinoSerial.js:77 | the trimmed text neither starts nor ends with white space |
| JsText.TrimShape | src/utils/arduinoSerial.js:77 | `trim` gives a text that neither starts nor ends with white space; it is the input's text between a white-space prefix and a white-space suffix |
| JsText.TrimPadded | src/utils/arduinoSerial.js:77 | trimming white space, then text that starts and ends with a non-space, then white space gives back that text |
| JsText.ParseInt | src/utils/arduinoSerial.js:95 | blank text is NaN; a negative result needs '-' as the first character after the white space |
| JsText.ParseIntDecimal | src/utils/arduinoSerial.js:95 | `parseInt` of white space, the canonical decimal form of an integer (no '+', no leading zeros) and trailing text that does not start with a digit gives that integer; only after a lone "0" must the text not start with 'x' or 'X' |
| JsText.ParseIntIgnoresTrailingText | src/utils/arduinoSerial.js:95 | `parseInt(" -7abc")` is -7: leading space skipped, sign read, trailing text ignored |
| JsText.ParseIntHexadecimal | src/utils/arduinoSerial.js:95 | `parseInt("0x1A")` is 26: with no radix a 0x prefix selects hexadecimal |
| JsText.ParseIntNaN | src/utils/arduinoSerial.js:95-98 | `parseInt("0x")` and `parseInt("abc")` are NaN |
| SerialAdapter.LineStep | src/utils/arduinoSerial.js:87-118 | an emitted event needs a handler, carries the new `lastValue` as `raw` and the nonzero change as `delta`, with the direction of its sign |
| SerialAdapter.TaggedLine | src/utils/arduinoSerial.js:94-112 | a "DIAL:" line whose value parses always moves `lastValue` to that value; an event is emitted iff a handler is set and the value differs; it carries the value, the difference and a clockwise direction iff the difference is positive |
| SerialAdapter.InertLine | src/utils/arduinoSerial.js:88-98 | an empty line, an untagged line (the tag is case-sensitive) and a tagged line whose value is NaN emit nothing and leave `lastValue` |
| SerialAdapter.Feed | src/utils/arduinoSerial.js:76-78 | processing lines in order emits at most one event per line |
| SerialAdapter.FeedAppend | src/utils/arduinoSerial.js:76-78 | processing lines `a + b` is processing `a`, then `b` from the `lastValue` `a` left |
| SerialAdapter.FeedTelescopes | src/utils/arduinoSerial.js:100-112 | with a handler, the emitted deltas sum to final minus initial `lastValue`; every delta is nonzero and its direction is its sign |
| SerialAdapter.FeedWithoutHandler | src/utils/arduinoSerial.js:103 | without a handler no line emits anything, and `lastValue` ends where it would with a handler |
| SerialAdapter.AbsorbStep | src/utils/arduinoSerial.js:70-78 | one read-loop pass leaves a buffer without '\n' and emits at most one event per complete line |
| SerialAdapter.FramingConcat | src/utils/arduinoSerial.js:70-74 | the lines and fragment of `buffer + x + y` are those of `buffer + x`, then those of its fragment followed by `y` |
| SerialAdapter.AbsorbConcat | src/utils/arduinoSerial.js:66-78 | two read-loop passes over chunks `x` and `y` give the events, `lastValue` and buffer of one pass over `x + y` |
| SerialAdapter.AbsorbEmpty | src/utils/arduinoSerial.js:70-78 | an empty chunk changes nothing while the buffer holds no '\n' |
| SerialAdapter.TaggedDecimal | src/utils/arduinoSerial.js:94-95 | the line a device sends for position n survives `trim`, and its value parses back to n |
| SerialAdapter.RepeatedValueExample | src/utils/arduinoSerial.js:70-112 | "DIAL:5\nDIAL:5\nDIAL:9\n" from 0 with a handler emits deltas 5 then 4, both clockwise, and ends with `lastValue` 9 and an empty buffer |
| SerialAdapter.UnknownLineExample | src/utils/arduinoSerial.js:88-94 | a "READY" line emits nothing and leaves `lastValue`, whatever the handler |
| SerialAdapter.ArduinoSerial.constructor | src/utils/arduinoSerial.js:7-13 | no port, no reader, not connected, no handler, `lastValue` 0 |
| SerialAdapter.ArduinoSerial.Connect | src/utils/arduinoSerial.js:15-40 | without Web Serial, or when no port is granted, nothing changes; a port that fails to open is kept, and the connection flag, reader and buffer are left as they were; an opened port connects and starts reading; `lastValue` and the handler survive |
| SerialAdapter.ArduinoSerial.OpenReader | src/utils/arduinoSerial.js:56-63 | without a port nothing happens; otherwise a reader is taken and the buffer starts empty |
| SerialAdapter.ArduinoSerial.ProcessLine | src/utils/arduinoSerial.js:87-118 | the event emitted and the new `lastValue` are those of `LineStep` |
| SerialAdapter.ArduinoSerial.Absorb | src/utils/arduinoSerial.js:70-78 | afterwards the buffer holds no '\n'; old buffer + chunk is the lines passed on, each with its '\n', then the new buffer; events and `lastValue` are those of the trimmed lines in order |
| SerialAdapter.ArduinoSerial.ProcessLines | src/utils/arduinoSerial.js:76-78 | each line trimmed and processed in order, with the events of `Feed` |
| SerialAdapter.ArduinoSerial.ReadAll | src/utils/arduinoSerial.js:65-79 | reading a stream chunk by chunk gives the events, `lastValue` and buffer of one pass over the whole text |
| SerialAdapter.ArduinoSerial.Disconnect | src/utils/arduinoSerial.js:42-54 | succeeds iff the `cancel` and `close` it awaits resolve, and then leaves no reader, no port and no connection; a rejected `cancel` changes nothing; a rejected `close` leaves the reader released but the port and the connection flag as they were; `lastValue`, handler and buffer are never touched |
| SerialAdapter.ArduinoSerial.SetDialChangeHandler | src/utils/arduinoSerial.js:120-122 | the handler is set or cleared |
| BluetoothAdapter.GetInt32 | src/utils/arduinoBluetooth.js:81 | defined iff at least 4 bytes; the value is b0 + 2^8·b1 + 2^16·b2 + 2^24·b3, minus 2^32 when b3 ≥ 128, and lies in [-2^31, 2^31) |
| BluetoothAdapter.DecodeEncode | src/utils/arduinoBluetooth.js:81 | decoding the four bytes a device sends for any 32-bit position gives the position back |
| BluetoothAdapter.EncodeDecode | src/utils/arduinoBluetooth.js:81 | encoding a decoded position gives back the first four bytes |
| BluetoothAdapter.IsClick | src/utils/arduinoBluetooth.js:88 | defined iff there is a byte; a click iff the first byte is exactly 1 |
| BluetoothAdapter.PositionStep | src/utils/arduinoBluetooth.js:102-124 | an event needs a handler and moves `lastPosition` to the reading; without an event `lastPosition` stays |
| BluetoothAdapter.PositionStepSpec | src/utils/arduinoBluetooth.js:102-124 | exactly one event iff a handler is set and the position differs; it has raw = position = the reading, delta = reading − `lastPosition`, clockwise iff the reading is larger, and `lastPosition` becomes the reading; otherwise `lastPosition` stays |
| BluetoothAdapter.Track | src/utils/arduinoBluetooth.js:80-83 | each notification goes through `handlePositionChange` in order, with at most one event each |
| BluetoothAdapter.TrackTelescopes | src/utils/arduinoBluetooth.js:102-122 | with a handler, `lastPosition` ends at the last reading and the emitted deltas sum to it minus the initial `lastPosition` |
| BluetoothAdapter.TrackWithoutHandler | src/utils/arduinoBluetooth.js:103 | without a handler no reading emits anything or moves `lastPosition` |
| BluetoothAdapter.TrackExample | src/utils/arduinoBluetooth.js:81-122 | readings 10 then -3, sent as bytes, from 0 emit a clockwise delta of 10 then a counterclockwise delta of -13 |
| BluetoothAdapter.ArduinoBluetooth.constructor | src/utils/arduinoBluetooth.js:8-17 | no device or link handles, not connected, no handlers, `lastPosition` 0 |
| BluetoothAdapter.ArduinoBluetooth.GetConnectionStatus | src/utils/arduinoBluetooth.js:168-174 | `connected` is `isConnected` and the type is "bluetooth"; the device name and id are present iff a device is recorded, and are then that device's name and id |
| BluetoothAdapter.ArduinoBluetooth.Connect | src/utils/arduinoBluetooth.js:25-74 | without Web Bluetooth nothing changes; a completed setup records the device and every handle and connects; any failure after that leaves the cleared state; handlers and `lastPosition` survive |
| BluetoothAdapter.ArduinoBluetooth.HandlePositionChange | src/utils/arduinoBluetooth.js:102-124 | the event and the new `lastPosition` are those of `PositionStep` |
| BluetoothAdapter.ArduinoBluetooth.OnPositionChanged | src/utils/arduinoBluetooth.js:80-83 | fewer than four bytes change nothing; otherwise the decoded reading goes through `PositionStep` |
| BluetoothAdapter.ArduinoBluetooth.OnClickChanged | src/utils/arduinoBluetooth.js:87-92 | the click callback runs iff it is set and the first byte is exactly 1 |
| BluetoothAdapter.ArduinoBluetooth.Cleanup | src/utils/arduinoBluetooth.js:150-157 | device and every handle cleared and not connected; handlers and `lastPosition` untouched; the status is then not connected, type "bluetooth", no device name or id |
| BluetoothAdapter.ArduinoBluetooth.OnDisconnected | src/utils/arduinoBluetooth.js:126-129 | a peer disconnect reaches the cleared state and status `Cleanup` does |
| BluetoothAdapter.ArduinoBluetooth.Disconnect | src/utils/arduinoBluetooth.js:131-148 | a local disconnect reaches the same cleared state and status |
| BluetoothAdapter.ArduinoBluetooth.SetDialChangeHandler | src/utils/arduinoBluetooth.js:159-161 | the dial handler is set or cleared |
| BluetoothAdapter.ArduinoBluetooth.SetClickHandler | src/utils/arduinoBluetooth.js:163-165 | the click handler is set or cleared |
| WiFiAdapter.HandleMessage | src/utils/arduinoWebSocket.js:76-103 | `null` throws; the dial callback fires iff the type is "dial", the handler is set and `delta` is defined, with `position` and `delta` copied as they came; the click callback fires iff the type is "click" and the handler is set |
| WiFiAdapter.OtherTypesAreInert | src/utils/arduinoWebSocket.js:77-101 | "connected", any other type and a missing type fire no callback |
| WiFiAdapter.ZeroDeltaForwarded | src/utils/arduinoWebSocket.js:82-91 | a dial message with delta 0 is forwarded, delta 0 included |
| WiFiAdapter.ArduinoWiFi.constructor | src/utils/arduinoWebSocket.js:8-14 | no event source, not connected, no handlers, `lastPosition` 0 |
| WiFiAdapter.ArduinoWiFi.GetConnectionStatus | src/utils/arduinoWebSocket.js:106-112 | `connected` is `isConnected`; in every state the type is "wifi" and the endpoint "/api/arduino" |
| WiFiAdapter.ArduinoWiFi.Connect | src/utils/arduinoWebSocket.js:20 | an event source is opened; nothing else changes |
| WiFiAdapter.ArduinoWiFi.OnOpen | src/utils/arduinoWebSocket.js:22-25 | connected; the status reports connected, type "wifi", endpoint "/api/arduino" |
| WiFiAdapter.ArduinoWiFi.OnError | src/utils/arduinoWebSocket.js:37-43 | not connected, and the pending connect is always rejected |
| WiFiAdapter.ArduinoWiFi.OnMessage | src/utils/arduinoWebSocket.js:28-35 | a message that is not JSON is caught; otherwise the callback is the one `HandleMessage` selects; no field changes |
| WiFiAdapter.ArduinoWiFi.Disconnect | src/utils/arduinoWebSocket.js:59-66 | no event source and not connected whatever the state before, so a second call changes nothing; the status reports not connected |
| WiFiAdapter.ArduinoWiFi.SetDialChangeHandler | src/utils/arduinoWebSocket.js:68-70 | the dial handler is set or cleared |
| WiFiAdapter.ArduinoWiFi.SetClickHandler | src/utils/arduinoWebSocket.js:72-74 | the click handler is set or cleared |
| Json.Property | src/utils/arduinoWebSocket.js:77-83 | `v[key]` is defined iff `v` is an object with that own member, and is then that member's value |
| Json.Truthy | src/routes/api/arduino/+server.js:12 | a value is truthy iff it is present and is not `null`, `false`, `0` or `""`; so `"0"`, `[]` and `{}` are truthy |
| ArduinoEndpoint.Frame | src/routes/api/arduino/+server.js:20 | a frame for a payload without a line feed is exactly two lines, "data: " + payload and an empty line, with nothing left over |
| ArduinoEndpoint.Delivered | src/routes/api/arduino/+server.js:21-28 | every stream stays registered; a recipient's stream gains the frame once at its end; every other stream is unchanged |
| ArduinoEndpoint.Validate | src/routes/api/arduino/+server.js:9-34 | "Invalid JSON" iff the body does not parse or is `null`; "Missing type field" iff `type` is missing or falsy; otherwise the frame is "data: " + the serialised body + "\n\n" |
| ArduinoEndpoint.Answer | src/routes/api/arduino/+server.js:13-34 | status 200 iff accepted; a rejection answers 400 with its message |
| ArduinoEndpoint.FramesReadBack | src/routes/api/arduino/+server.js:20 | a stream of frames whose payloads hold no line feed reads back, as an event-stream receiver dispatches it, the payloads in order |
| ArduinoEndpoint.SubscriberReadsBack | src/routes/api/arduino/+server.js:52-61 | a new stream followed by relayed frames reads back the connected greeting, then the payloads |
| ArduinoEndpoint.Endpoint.constructor | src/routes/api/arduino/+server.js:4 | the registry starts empty |
| ArduinoEndpoint.Endpoint.Post | src/routes/api/arduino/+server.js:7-36 | the response is that of `Validate`; a rejection leaves every stream and the registry as they were; an acceptance answers 200 even with no listener, appends one copy of the frame to each registered stream whose write succeeds, and removes exactly those whose write fails |
| ArduinoEndpoint.Endpoint.Broadcast | src/routes/api/arduino/+server.js:20-28 | the loop over the registry: every registered stream but the failing ones gets the frame once; exactly the failing ones are removed; one failure does not stop the rest |
| ArduinoEndpoint.Endpoint.Get | src/routes/api/arduino/+server.js:52-61 | the new stream holds just the connected frame, and the registry gains that stream |
| ArduinoEndpoint.Endpoint.Abort | src/routes/api/arduino/+server.js:64-67 | exactly that stream leaves the registry, harmlessly if a failed write already removed it, and it is closed |

## Left out

- Browser and device I/O are parameters of the methods, not modelled calls:
  - `navigator.serial`, `requestPort` and `port.open`;
  - `requestDevice`, `gatt.connect`, `getPrimaryService`, `getCharacteristic`
    and `start`/`stopNotifications`;
  - `EventSource`, `TextDecoderStream`, `TextEncoder`, the reader's
    `read` and `releaseLock`;
  - the outcome of the reader's `cancel` and the port's `close`, which
    `Disconnect` takes as parameters.
- SerialAdapter.ArduinoSerial.ReadAll: the loop's suspension at each read, a
  read error ending the loop, and the reader being cancelled from outside are
  not modelled. The model covers a stream that delivers its chunks and ends.
- WiFiAdapter.ArduinoWiFi.Connect: the promise and the 10-second timeout that
  closes the event source are timers and concurrency and are left out. The
  open and error callbacks are modelled as plain transitions.
- `JSON.parse` and `JSON.stringify` are not modelled. Messages arrive parsed,
  and the endpoint receives each body together with its serialised text.
- `FramesReadBack` assumes that serialised text holds no line feed, which
  `JSON.stringify` without indentation guarantees.
- The event-stream receiver modelled handles line feeds only. Carriage
  returns as line ends, the `event`, `id` and `retry` fields and a leading
  byte-order mark are not needed for the frames this server writes.
- `Date.now()` timestamps are omitted from the events.
- `console` logging is omitted.
- HTTP headers, `Response` construction and the `json` helper are modelled
  only as a status and a body.
- The static `isSupported` and `getSupportInfo` feature checks of the
  Bluetooth adapter are left out.
- A callback that throws is not modelled. In the serial and Bluetooth
  adapters it would skip the update of `lastValue` or `lastPosition`, and in
  the WiFi adapter the message listener would catch it.
- The iteration order of the server's `Set` is not modelled, because the
  outcome for each listener does not depend on it.
- JsText.ParseInt: `parseInt` uses mathematical integers. Precision is not
  lost beyond 2^53, and "-0" is 0.
- UTF-16 is not modelled. Strings are sequences of code points, and every
  character the adapters test lies in the Basic Multilingual Plane.
- BluetoothAdapter.ArduinoBluetooth.GetConnectionStatus: a device without a
  name is reported with its name, not with `undefined`.
