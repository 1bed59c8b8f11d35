/** The Bluetooth Low Energy transport: a position characteristic carries a
    signed 32-bit little-endian reading, a click characteristic a one-byte
    flag. */
module BluetoothAdapter {
  import opened Dial

  type Byte = b: int | 0 <= b < 0x100

  /** The unsigned number four bytes spell, least significant first. */
  function Unsigned32(b0: Byte, b1: Byte, b2: Byte, b3: Byte): int
  {
    b0 as int + 0x100 * (b1 as int) + 0x1_0000 * (b2 as int) + 0x100_0000 * (b3 as int)
  }

  /** `value.getInt32(0, true)`: the first four bytes as a little-endian
      two's-complement integer; `None` when the value is shorter, where
      `getInt32` throws a RangeError. */
  function GetInt32(value: seq<Byte>): (r: Option<int>)
    ensures r.Some? <==> |value| >= 4
    ensures r.Some? ==> -0x8000_0000 <= r.value < 0x8000_0000
    ensures r.Some? ==>
      r.value == Unsigned32(value[0], value[1], value[2], value[3])
                 - (if value[3] >= 0x80 then 0x1_0000_0000 else 0)
  {
    if |value| < 4 then None
    else
      var u := Unsigned32(value[0], value[1], value[2], value[3]);
      Some(if u >= 0x8000_0000 then u - 0x1_0000_0000 else u)
  }

  /** The four bytes a device sends for position `v`, least significant
      first. */
  function EncodeInt32(v: int): (bytes: seq<Byte>)
    requires -0x8000_0000 <= v < 0x8000_0000
    ensures |bytes| == 4
  {
    var u := if v < 0 then v + 0x1_0000_0000 else v;
    var u1 := u / 0x100;
    var u2 := u1 / 0x100;
    [u % 0x100, u1 % 0x100, u2 % 0x100, u2 / 0x100]
  }

  lemma DivMod256(x: int, q: int, r: int)
    requires 0 <= r < 0x100 && x == 0x100 * q + r
    ensures x / 0x100 == q && x % 0x100 == r
  {
  }

  /** Decoding what a device encodes gives back the position. */
  lemma DecodeEncode(v: int)
    requires -0x8000_0000 <= v < 0x8000_0000
    ensures GetInt32(EncodeInt32(v)) == Some(v)
  {
    var u := if v < 0 then v + 0x1_0000_0000 else v;
    var u1 := u / 0x100;
    var u2 := u1 / 0x100;
    assert u == 0x100 * u1 + u % 0x100;
    assert u1 == 0x100 * u2 + u1 % 0x100;
    assert u2 == 0x100 * (u2 / 0x100) + u2 % 0x100;
    assert u2 / 0x100 >= 0x80 <==> u >= 0x8000_0000;
  }

  /** Encoding a decoded position gives back the four bytes. */
  lemma EncodeDecode(value: seq<Byte>)
    requires |value| >= 4
    ensures EncodeInt32(GetInt32(value).value) == value[..4]
  {
    var b0, b1, b2, b3 := value[0] as int, value[1] as int, value[2] as int, value[3] as int;
    var u2 := b2 + 0x100 * b3;
    var u1 := b1 + 0x100 * u2;
    var u := b0 + 0x100 * u1;
    DivMod256(u, u1, b0);
    DivMod256(u1, u2, b1);
    DivMod256(u2, b3, b2);
  }

  /** `value.getUint8(0) === 1`; `None` for an empty value, where
      `getUint8` throws a RangeError. */
  function IsClick(value: seq<Byte>): (r: Option<bool>)
    ensures r.Some? <==> |value| >= 1
    ensures r == Some(true) <==> |value| >= 1 && value[0] == 1
  {
    if value == [] then None else Some(value[0] == 1)
  }

  /** The object handed to the dial-change callback: `{raw, position, delta,
      direction}` (the timestamp is left out). */
  datatype BleDial = BleDial(raw: int, position: int, delta: int, direction: Direction)

  /** What `handlePositionChange` does: the event it emits, if any, and the
      value `lastPosition` has afterwards. */
  datatype PositionEffect = PositionEffect(event: Option<BleDial>, lastPosition: int)

  /** `handlePositionChange(position)`: `lastPosition` moves only when an
      event is emitted. */
  function PositionStep(lastPosition: int, hasHandler: bool, position: int): (e: PositionEffect)
    ensures e.event.Some? ==> hasHandler && e.lastPosition == position
    ensures e.event.None? ==> e.lastPosition == lastPosition
  {
    if !hasHandler then PositionEffect(None, lastPosition)
    else
      var delta := position - lastPosition;
      if delta != 0 then
        PositionEffect(Some(BleDial(position, position, delta, DirectionOf(delta))), position)
      else PositionEffect(None, lastPosition)
  }

  /** With a handler set and a position other than `lastPosition`, exactly
      one event is emitted, carrying the position and the signed distance
      from `lastPosition`, clockwise exactly when that distance is positive;
      afterwards `lastPosition` is the new position. Otherwise nothing is
      emitted and `lastPosition` stays. */
  lemma PositionStepSpec(lastPosition: int, hasHandler: bool, position: int)
    ensures var e := PositionStep(lastPosition, hasHandler, position);
      && (e.event.Some? <==> hasHandler && position != lastPosition)
      && (e.event.Some? ==>
            && e.event.value.raw == position && e.event.value.position == position
            && e.event.value.delta == position - lastPosition
            && (e.event.value.direction == Clockwise <==> position > lastPosition)
            && e.lastPosition == position)
      && (e.event.None? ==> e.lastPosition == lastPosition)
  {
  }

  /** The outcome of a sequence of position notifications. */
  datatype Run = Run(events: seq<BleDial>, lastPosition: int)

  /** `handlePositionChange` applied to each notification in order; at
      most one event per notification. */
  function Track(lastPosition: int, hasHandler: bool, positions: seq<int>): (r: Run)
    ensures |r.events| <= |positions|
  {
    if positions == [] then Run([], lastPosition)
    else
      var r := Track(lastPosition, hasHandler, positions[..|positions| - 1]);
      var e := PositionStep(r.lastPosition, hasHandler, positions[|positions| - 1]);
      Run(r.events + (if e.event.Some? then [e.event.value] else []), e.lastPosition)
  }

  function BleDelta(e: BleDial): int
  {
    e.delta
  }

  /** With a handler set, `lastPosition` follows every notification, and
      the emitted deltas add up to the distance travelled from the initial
      `lastPosition` to the last position. */
  lemma {:induction false} TrackTelescopes(lastPosition: int, positions: seq<int>)
    ensures var r := Track(lastPosition, true, positions);
      && r.lastPosition == (if positions == [] then lastPosition else positions[|positions| - 1])
      && Sum(Deltas(r.events, BleDelta)) == r.lastPosition - lastPosition
  {
    if positions != [] {
      var init := positions[..|positions| - 1];
      TrackTelescopes(lastPosition, init);
      var r := Track(lastPosition, true, init);
      var e := PositionStep(r.lastPosition, true, positions[|positions| - 1]);
      if e.event.Some? {
        var evs := r.events + [e.event.value];
        assert evs[..|evs| - 1] == r.events;
      } else {
        assert r.events + [] == r.events;
      }
    }
  }

  /** Without a handler no notification emits anything or moves
      `lastPosition`. */
  lemma {:induction false} TrackWithoutHandler(lastPosition: int, positions: seq<int>)
    ensures Track(lastPosition, false, positions) == Run([], lastPosition)
  {
    if positions != [] {
      TrackWithoutHandler(lastPosition, positions[..|positions| - 1]);
    }
  }

  /** From position 0, a reading of 10 followed by a reading of -3 emits a
      clockwise delta of 10, then a counterclockwise delta of -13. */
  lemma TrackExample()
    ensures Track(0, true, [GetInt32(EncodeInt32(10)).value, GetInt32(EncodeInt32(-3)).value]).events
      == [BleDial(10, 10, 10, Clockwise), BleDial(-3, -3, -13, Counterclockwise)]
  {
    DecodeEncode(10);
    DecodeEncode(-3);
    assert [10, -3][..1] == [10] && [10][..0] == [];
  }

  /** The device the user picked: its name and id. */
  datatype DeviceInfo = DeviceInfo(name: string, id: string)

  /** What `getConnectionStatus()` returns. */
  datatype BleStatus = BleStatus(connected: bool, kind: string, deviceName: Option<string>, deviceId: Option<string>)

  /** How far `connect()` gets once Web Bluetooth is available: no device
      chosen, a device chosen but the link or its service, characteristics
      or notifications failing, or everything set up. */
  datatype ConnectOutcome = NoDevice | SetupFailed(device: DeviceInfo) | Established(device: DeviceInfo)

  /** The Bluetooth adapter. The `has…` flags stand for the non-null
      `server`, `service` and characteristic handles and for set callbacks. */
  class ArduinoBluetooth {
    var device: Option<DeviceInfo>
    var hasServer: bool
    var hasService: bool
    var hasPositionCharacteristic: bool
    var hasClickCharacteristic: bool
    var isConnected: bool
    var hasDialHandler: bool
    var hasClickHandler: bool
    var lastPosition: int

    constructor ()
      ensures device.None? && !hasServer && !hasService
      ensures !hasPositionCharacteristic && !hasClickCharacteristic && !isConnected
      ensures !hasDialHandler && !hasClickHandler && lastPosition == 0
    {
      device := None;
      hasServer, hasService := false, false;
      hasPositionCharacteristic, hasClickCharacteristic := false, false;
      isConnected, hasDialHandler, hasClickHandler := false, false, false;
      lastPosition := 0;
    }

    /** The state `cleanup()` leaves: every link handle cleared and not
        connected, with the handlers and `lastPosition` as they were. */
    twostate predicate Cleared()
      reads this
    {
      && device.None? && !hasServer && !hasService
      && !hasPositionCharacteristic && !hasClickCharacteristic && !isConnected
      && hasDialHandler == old(hasDialHandler) && hasClickHandler == old(hasClickHandler)
      && lastPosition == old(lastPosition)
    }

    /** `getConnectionStatus()`. */
    function GetConnectionStatus(): (s: BleStatus)
      reads this
      ensures s.connected == isConnected && s.kind == "bluetooth"
      ensures s.deviceName.Some? <==> device.Some?
      ensures s.deviceId.Some? <==> device.Some?
      ensures device.Some? ==> s.deviceName == Some(device.value.name)
      ensures device.Some? ==> s.deviceId == Some(device.value.id)
    {
      BleStatus(isConnected, "bluetooth",
        if device.Some? then Some(device.value.name) else None,
        if device.Some? then Some(device.value.id) else None)
    }

    /** `connect()`: success sets every handle and marks the adapter
        connected; a failure after Web Bluetooth was found cleans up;
        `lastPosition` survives either way. */
    method Connect(supported: bool, outcome: ConnectOutcome) returns (r: ConnectResult)
      modifies this
      ensures !supported ==> r == Unsupported && unchanged(this)
      ensures supported && outcome.Established? ==>
        && r == Connected && device == Some(outcome.device)
        && hasServer && hasService && hasPositionCharacteristic && hasClickCharacteristic
        && isConnected
      ensures supported && !outcome.Established? ==> r == Failed && Cleared()
      ensures hasDialHandler == old(hasDialHandler) && hasClickHandler == old(hasClickHandler)
      ensures lastPosition == old(lastPosition)
    {
      if !supported {
        return Unsupported;
      }
      match outcome
      case NoDevice =>
        Cleanup();
        r := Failed;
      case SetupFailed(d) =>
        device := Some(d);
        Cleanup();
        r := Failed;
      case Established(d) =>
        device := Some(d);
        hasServer, hasService := true, true;
        hasPositionCharacteristic, hasClickCharacteristic := true, true;
        isConnected := true;
        r := Connected;
    }

    /** `handlePositionChange(position)`. */
    method HandlePositionChange(position: int) returns (event: Option<BleDial>)
      modifies this`lastPosition
      ensures PositionEffect(event, lastPosition)
        == PositionStep(old(lastPosition), hasDialHandler, position)
    {
      event := None;
      if hasDialHandler {
        var delta := position - lastPosition;
        if delta != 0 {
          event := Some(BleDial(position, position, delta, if delta > 0 then Clockwise else Counterclockwise));
          lastPosition := position;
        }
      }
    }

    /** A notification on the position characteristic. A value shorter than
        four bytes makes `getInt32` throw before anything changes. */
    method OnPositionChanged(value: seq<Byte>) returns (event: Option<BleDial>)
      modifies this`lastPosition
      ensures |value| < 4 ==> event.None? && lastPosition == old(lastPosition)
      ensures |value| >= 4 ==>
        PositionEffect(event, lastPosition)
          == PositionStep(old(lastPosition), hasDialHandler, GetInt32(value).value)
    {
      var position := GetInt32(value);
      if position.None? {
        return None;
      }
      event := HandlePositionChange(position.value);
    }

    /** A notification on the click characteristic: the click callback runs
        exactly when it is set and the first byte is 1. */
    method OnClickChanged(value: seq<Byte>) returns (fired: bool)
      ensures fired <==> hasClickHandler && |value| >= 1 && value[0] == 1
    {
      var clicked := IsClick(value);
      fired := clicked == Some(true) && hasClickHandler;
    }

    /** `cleanup()`. */
    method Cleanup()
      modifies this
      ensures Cleared()
      ensures GetConnectionStatus() == BleStatus(false, "bluetooth", None, None)
    {
      device := None;
      hasServer, hasService := false, false;
      hasPositionCharacteristic, hasClickCharacteristic := false, false;
      isConnected := false;
    }

    /** `onDisconnected()`, run when the peer drops the link. */
    method OnDisconnected()
      modifies this
      ensures Cleared()
      ensures GetConnectionStatus() == BleStatus(false, "bluetooth", None, None)
    {
      Cleanup();
    }

    /** `disconnect()`: stopping notifications and dropping the link are
        best effort; the local state always ends as `cleanup()` leaves it. */
    method Disconnect()
      modifies this
      ensures Cleared()
      ensures GetConnectionStatus() == BleStatus(false, "bluetooth", None, None)
    {
      Cleanup();
    }

    method SetDialChangeHandler(present: bool)
      modifies this`hasDialHandler
      ensures hasDialHandler == present
    {
      hasDialHandler := present;
    }

    method SetClickHandler(present: bool)
      modifies this`hasClickHandler
      ensures hasClickHandler == present
    {
      hasClickHandler := present;
    }
  }
}
