/** Vocabulary shared by the three dial transports. */
module Dial {

  /** A value that may be absent (JavaScript `null` / `undefined`). */
  datatype Option<+T> = None | Some(value: T)

  /** How a `connect()` call ends: it resolves, it throws because the
      browser lacks the interface, or it throws because the device could
      not be reached. */
  datatype ConnectResult = Connected | Unsupported | Failed

  /** The direction tag attached to a rotation event. */
  datatype Direction = Clockwise | Counterclockwise

  /** `delta > 0 ? 'clockwise' : 'counterclockwise'`, as both the serial
      and the Bluetooth adapter compute it. */
  function DirectionOf(delta: int): (d: Direction)
    ensures d == Clockwise <==> delta > 0
  {
    if delta > 0 then Clockwise else Counterclockwise
  }

  /** The deltas of a sequence of events, `delta` reading one event's. */
  function Deltas<E>(events: seq<E>, delta: E -> int): (ds: seq<int>)
    ensures |ds| == |events|
  {
    if events == [] then [] else Deltas(events[..|events| - 1], delta) + [delta(events[|events| - 1])]
  }

  /** Sum of a sequence of integers, used to state that deltas telescope. */
  function Sum(xs: seq<int>): int
  {
    if xs == [] then 0 else Sum(xs[..|xs| - 1]) + xs[|xs| - 1]
  }
}
