/** The serial transport: text arrives in chunks, is framed into lines, and
    each line of the form "DIAL:<integer>" becomes a rotation event. */
module SerialAdapter {
  import opened Dial
  import opened Lines
  import opened JsText

  /** The object handed to the dial-change callback: `{raw, delta, direction}`. */
  datatype SerialDial = SerialDial(raw: int, delta: int, direction: Direction)

  /** What `processLine` does to one line: the event it emits, if any, and
      the value `lastValue` has afterwards. */
  datatype LineEffect = LineEffect(event: Option<SerialDial>, lastValue: int)

  /** The tag every position line starts with (compared case-sensitively). */
  const Tag: string := "DIAL:"

  /** `processLine(line)` on an already trimmed line. */
  function LineStep(lastValue: int, hasHandler: bool, line: string): (e: LineEffect)
    ensures e.event.Some? ==>
      hasHandler && e.event.value.raw == e.lastValue
      && e.event.value.delta == e.lastValue - lastValue && Moved(e.event.value)
  {
    if line == [] || !(Tag <= line) then LineEffect(None, lastValue)
    else
      match ParseInt(line[|Tag|..])
      case None => LineEffect(None, lastValue)
      case Some(raw) =>
        var delta := raw - lastValue;
        var event := if delta != 0 && hasHandler
          then Some(SerialDial(raw, delta, DirectionOf(delta))) else None;
        LineEffect(event, raw)
  }

  /** A tagged line with a parseable value always moves `lastValue` to that
      value, with or without a handler and even when nothing moved; an
      event is emitted exactly when a handler is set and the value differs,
      and it carries the difference and its direction. */
  lemma TaggedLine(lastValue: int, hasHandler: bool, s: string)
    requires ParseInt(s).Some?
    ensures var raw := ParseInt(s).value;
      var e := LineStep(lastValue, hasHandler, Tag + s);
      && e.lastValue == raw
      && (e.event.Some? <==> hasHandler && raw != lastValue)
      && (e.event.Some? ==> e.event.value == SerialDial(raw, raw - lastValue, DirectionOf(raw - lastValue)))
      && (e.event.Some? ==> (e.event.value.direction == Clockwise <==> raw > lastValue))
  {
    assert (Tag + s)[|Tag|..] == s;
  }

  /** An empty line, a line without the tag, and a tagged line whose value
      is NaN emit nothing and leave `lastValue` alone. */
  lemma InertLine(lastValue: int, hasHandler: bool, line: string)
    requires line == [] || !(Tag <= line) || ParseInt(line[|Tag|..]).None?
    ensures LineStep(lastValue, hasHandler, line) == LineEffect(None, lastValue)
  {
  }

  /** The outcome of processing several lines in order. */
  datatype Run = Run(events: seq<SerialDial>, lastValue: int)

  /** `processLine` applied to each line in order; at most one event per
      line. */
  function Feed(lastValue: int, hasHandler: bool, lines: seq<string>): (r: Run)
    ensures |r.events| <= |lines|
  {
    if lines == [] then Run([], lastValue)
    else
      var r := Feed(lastValue, hasHandler, lines[..|lines| - 1]);
      var e := LineStep(r.lastValue, hasHandler, lines[|lines| - 1]);
      Run(r.events + (if e.event.Some? then [e.event.value] else []), e.lastValue)
  }

  /** Processing `a + b` is processing `a`, then `b` from where `a` left off. */
  lemma {:induction false} FeedAppend(lastValue: int, hasHandler: bool, a: seq<string>, b: seq<string>)
    ensures var r1 := Feed(lastValue, hasHandler, a);
      var r2 := Feed(r1.lastValue, hasHandler, b);
      Feed(lastValue, hasHandler, a + b) == Run(r1.events + r2.events, r2.lastValue)
  {
    if b != [] {
      var init, x := b[..|b| - 1], b[|b| - 1];
      assert b == init + [x];
      assert a + b == (a + init) + [x];
      FeedAppend(lastValue, hasHandler, a, init);
      FeedSnoc(lastValue, hasHandler, a + init, x);
      FeedSnoc(Feed(lastValue, hasHandler, a).lastValue, hasHandler, init, x);
    } else {
      assert a + b == a;
    }
  }

  /** Processing one more line is one more `LineStep`. */
  lemma FeedSnoc(lastValue: int, hasHandler: bool, lines: seq<string>, x: string)
    ensures var r := Feed(lastValue, hasHandler, lines);
      var e := LineStep(r.lastValue, hasHandler, x);
      Feed(lastValue, hasHandler, lines + [x])
        == Run(r.events + (if e.event.Some? then [e.event.value] else []), e.lastValue)
  {
    assert (lines + [x])[..|lines|] == lines;
  }

  function SerialDelta(e: SerialDial): int
  {
    e.delta
  }

  /** An emitted event reports a real movement, with the direction of its
      sign. */
  predicate Moved(e: SerialDial)
  {
    e.delta != 0 && e.direction == DirectionOf(e.delta)
  }

  /** With a handler set the emitted deltas telescope: they add up to the
      distance from the initial `lastValue` to the final one, every one of
      them is nonzero, and its direction is its sign. */
  lemma {:induction false} FeedTelescopes(lastValue: int, lines: seq<string>)
    ensures var r := Feed(lastValue, true, lines);
      && Sum(Deltas(r.events, SerialDelta)) == r.lastValue - lastValue
      && forall i :: 0 <= i < |r.events| ==> Moved(r.events[i])
  {
    if lines != [] {
      var init := lines[..|lines| - 1];
      FeedTelescopes(lastValue, init);
      var r := Feed(lastValue, true, init);
      var e := LineStep(r.lastValue, true, lines[|lines| - 1]);
      if e.event.Some? {
        AppendMoved(r.events, e.event.value);
      } else {
        assert r.events + [] == r.events;
      }
    }
  }

  /** Appending a movement adds its delta to the sum and keeps every event a
      movement. */
  lemma AppendMoved(events: seq<SerialDial>, e: SerialDial)
    requires forall i :: 0 <= i < |events| ==> Moved(events[i])
    requires Moved(e)
    ensures Sum(Deltas(events + [e], SerialDelta)) == Sum(Deltas(events, SerialDelta)) + e.delta
    ensures forall i :: 0 <= i < |events + [e]| ==> Moved((events + [e])[i])
  {
    var evs := events + [e];
    assert evs[..|evs| - 1] == events;
  }

  /** Without a handler nothing is emitted, but `lastValue` still follows
      the last parseable line. */
  lemma {:induction false} FeedWithoutHandler(lastValue: int, lines: seq<string>)
    ensures Feed(lastValue, false, lines).events == []
    ensures Feed(lastValue, false, lines).lastValue == Feed(lastValue, true, lines).lastValue
  {
    if lines != [] {
      FeedWithoutHandler(lastValue, lines[..|lines| - 1]);
    }
  }

  /** Each line trimmed, as the read loop passes them to `processLine`. */
  function TrimAll(lines: seq<string>): (r: seq<string>)
    ensures |r| == |lines| && forall i :: 0 <= i < |lines| ==> r[i] == Trim(lines[i])
  {
    seq(|lines|, i requires 0 <= i < |lines| => Trim(lines[i]))
  }
  /** Processing one more trimmed line is one more `LineStep`. */
  lemma FeedStep(lastValue: int, hasHandler: bool, lines: seq<string>, i: nat)
    requires i < |lines|
    ensures var r := Feed(lastValue, hasHandler, TrimAll(lines[..i]));
      var e := LineStep(r.lastValue, hasHandler, Trim(lines[i]));
      Feed(lastValue, hasHandler, TrimAll(lines[..i + 1]))
        == Run(r.events + (if e.event.Some? then [e.event.value] else []), e.lastValue)
  {
    var t := TrimAll(lines[..i + 1]);
    assert t[..i] == TrimAll(lines[..i]);
    assert t[i] == Trim(lines[i]);
  }

  /** What the read loop holds between reads: the events emitted so far,
      `lastValue`, and the unterminated tail of the text. */
  datatype ReadState = ReadState(events: seq<SerialDial>, lastValue: int, buffer: string)

  /** One pass of the read loop: the chunk is appended to the buffer, the
      complete lines are processed in order, trimmed, and the tail is kept. */
  function AbsorbStep(buffer: string, lastValue: int, hasHandler: bool, chunk: string): (r: ReadState)
    ensures '\n' !in r.buffer
    ensures |r.events| <= |CompleteLines(buffer + chunk)|
  {
    var text := buffer + chunk;
    FramingFacts(text);
    var r := Feed(lastValue, hasHandler, TrimAll(CompleteLines(text)));
    ReadState(r.events, r.lastValue, Fragment(text))
  }

  /** Framing is insensitive to where the text is cut: the lines of
      `buffer + x + y` are those of `buffer + x`, then those of the fragment
      left over followed by `y`. */
  lemma FramingConcat(buffer: string, x: string, y: string)
    ensures var f1 := Fragment(buffer + x);
      && CompleteLines(buffer + (x + y)) == CompleteLines(buffer + x) + CompleteLines(f1 + y)
      && Fragment(buffer + (x + y)) == Fragment(f1 + y)
  {
    var l1, f1 := CompleteLines(buffer + x), Fragment(buffer + x);
    var l2, f2 := CompleteLines(f1 + y), Fragment(f1 + y);
    FramingFacts(buffer + x);
    FramingFacts(f1 + y);
    AllNoNewlineAppend(l1, l2);
    TerminatedAppend(l1, l2);
    Regroup(buffer, x, y, Terminated(l1), f1, Terminated(l2), f2);
    SplitTerminated(l1 + l2, f2);
  }

  /** Re-associating the text around the fragment carried between two
      chunks. */
  lemma Regroup(buffer: string, x: string, y: string, a: string, f1: string, b: string, f2: string)
    requires buffer + x == a + f1 && f1 + y == b + f2
    ensures buffer + (x + y) == (a + b) + f2
  {
    calc {
      buffer + (x + y);
      (buffer + x) + y;
      (a + f1) + y;
      a + (f1 + y);
      a + (b + f2);
      (a + b) + f2;
    }
  }

  lemma FramingFacts(s: string)
    ensures AllNoNewline(CompleteLines(s)) && '\n' !in Fragment(s)
    ensures s == Terminated(CompleteLines(s)) + Fragment(s)
  {
    var p := Split(s);
    SplitSpec(s);
    assert AllNoNewline(p[..|p| - 1]);
  }

  lemma AllNoNewlineAppend(a: seq<string>, b: seq<string>)
    requires AllNoNewline(a) && AllNoNewline(b)
    ensures AllNoNewline(a + b)
  {
    forall i | 0 <= i < |a + b| ensures '\n' !in (a + b)[i] {
      if i < |a| {
        assert (a + b)[i] == a[i];
      } else {
        assert (a + b)[i] == b[i - |a|];
      }
    }
  }

  /** Absorbing two chunks one after the other is absorbing their
      concatenation: where the text is cut into chunks does not matter. */
  lemma AbsorbConcat(buffer: string, lastValue: int, hasHandler: bool, x: string, y: string)
    ensures var s1 := AbsorbStep(buffer, lastValue, hasHandler, x);
      var s2 := AbsorbStep(s1.buffer, s1.lastValue, hasHandler, y);
      AbsorbStep(buffer, lastValue, hasHandler, x + y)
        == ReadState(s1.events + s2.events, s2.lastValue, s2.buffer)
  {
    var l1, f1 := CompleteLines(buffer + x), Fragment(buffer + x);
    var l2 := CompleteLines(f1 + y);
    FramingConcat(buffer, x, y);
    TrimAllAppend(l1, l2);
    FeedAppend(lastValue, hasHandler, TrimAll(l1), TrimAll(l2));
  }

  lemma TrimAllAppend(a: seq<string>, b: seq<string>)
    ensures TrimAll(a + b) == TrimAll(a) + TrimAll(b)
  {
  }

  /** An empty chunk changes nothing when the buffer holds no '\n'. */
  lemma AbsorbEmpty(buffer: string, lastValue: int, hasHandler: bool)
    requires '\n' !in buffer
    ensures AbsorbStep(buffer, lastValue, hasHandler, []) == ReadState([], lastValue, buffer)
  {
    assert Terminated([]) + buffer == buffer + [];
    SplitTerminated([], buffer);
    assert TrimAll([]) == [];
  }

  /** The line the controller sends for position `n` is already trimmed,
      and `processLine` reads `n` back from it. */
  lemma TaggedDecimal(n: int)
    ensures Trim(Tag + Decimal(n)) == Tag + Decimal(n)
    ensures ParseInt((Tag + Decimal(n))[|Tag|..]) == Some(n)
  {
    TaggedDecimalTrimmed(n);
    var line := Tag + Decimal(n);
    assert line[|Tag|..] == [] + Decimal(n) + [];
    ParseIntDecimal([], n, []);
  }

  lemma TaggedDecimalTrimmed(n: int)
    ensures Trim(Tag + Decimal(n)) == Tag + Decimal(n)
  {
    var line := Tag + Decimal(n);
    var d := NatDecimal(if n < 0 then -n else n);
    assert !IsWhiteSpace(line[|line| - 1]) by {
      assert line[|line| - 1] == d[|d| - 1];
      DigitRunDigits(d, 10, |d| - 1);
      DecimalDigitIsNoSign(d[|d| - 1]);
    }
    assert !IsWhiteSpace(line[0]) by {
      assert line[0] == 'D';
    }
    TrimPadded([], line, []);
    assert [] + line + [] == line;
  }

  /** The lines a controller at 5, 5, then 9 sends. */
  const ExampleText := "DIAL:5\nDIAL:5\nDIAL:9\n"

  lemma ExampleLines()
    ensures Tag + Decimal(5) == "DIAL:5" && Tag + Decimal(9) == "DIAL:9"
  {
    assert Decimal(5) == "5" && Decimal(9) == "9";
  }

  lemma ExampleFraming()
    ensures CompleteLines(ExampleText) == ["DIAL:5", "DIAL:5", "DIAL:9"]
    ensures Fragment(ExampleText) == []
  {
    var lines := ["DIAL:5", "DIAL:5", "DIAL:9"];
    calc {
      Terminated(lines) + [];
      "DIAL:5" + "\n" + ("DIAL:5" + "\n" + ("DIAL:9" + "\n" + Terminated([])));
      ExampleText;
    }
    SplitTerminated(lines, []);
  }

  lemma ExampleTrimmed()
    ensures TrimAll(["DIAL:5", "DIAL:5", "DIAL:9"]) == ["DIAL:5", "DIAL:5", "DIAL:9"]
  {
    ExampleLines();
    TaggedDecimalTrimmed(5);
    TaggedDecimalTrimmed(9);
  }

  /** "DIAL:5\nDIAL:5\nDIAL:9\n" from `lastValue` 0 with a handler set emits
      a delta of 5, nothing for the repeated value, then a delta of 4, both
      clockwise, and leaves `lastValue` at 9 with an empty buffer. */
  lemma RepeatedValueExample()
    ensures AbsorbStep([], 0, true, ExampleText)
      == ReadState([SerialDial(5, 5, Clockwise), SerialDial(9, 4, Clockwise)], 9, [])
  {
    assert [] + ExampleText == ExampleText;
    ExampleFraming();
    ExampleTrimmed();
    ExampleFeed();
  }

  lemma ExampleFeed()
    ensures Feed(0, true, ["DIAL:5", "DIAL:5", "DIAL:9"])
      == Run([SerialDial(5, 5, Clockwise), SerialDial(9, 4, Clockwise)], 9)
  {
    var e1 := SerialDial(5, 5, Clockwise);
    assert Feed(0, true, ["DIAL:5"]) == Run([e1], 5) by {
      FeedFirst();
    }
    assert Feed(0, true, ["DIAL:5", "DIAL:5"]) == Run([e1], 5) by {
      FeedRepeat(Feed(0, true, ["DIAL:5"]));
    }
    FeedLast(Feed(0, true, ["DIAL:5", "DIAL:5"]));
  }

  lemma FeedFirst()
    ensures Feed(0, true, ["DIAL:5"]) == Run([SerialDial(5, 5, Clockwise)], 5)
  {
    assert ["DIAL:5"][..0] == [];
    ExampleLines();
    TaggedDecimal(5);
    TaggedLine(0, true, Decimal(5));
  }

  lemma FeedRepeat(r: Run)
    requires Feed(0, true, ["DIAL:5"]) == r && r.lastValue == 5
    ensures Feed(0, true, ["DIAL:5", "DIAL:5"]) == r
  {
    assert ["DIAL:5", "DIAL:5"][..1] == ["DIAL:5"];
    ExampleLines();
    TaggedDecimal(5);
    TaggedLine(5, true, Decimal(5));
  }

  lemma FeedLast(r: Run)
    requires Feed(0, true, ["DIAL:5", "DIAL:5"]) == r && r.lastValue == 5
    ensures Feed(0, true, ["DIAL:5", "DIAL:5", "DIAL:9"])
      == Run(r.events + [SerialDial(9, 4, Clockwise)], 9)
  {
    assert ["DIAL:5", "DIAL:5", "DIAL:9"][..2] == ["DIAL:5", "DIAL:5"];
    ExampleLines();
    TaggedDecimal(9);
    TaggedLine(5, true, Decimal(9));
  }

  /** A line the controller does not send ("READY") emits nothing and leaves
      `lastValue` alone, whatever the handler. */
  lemma UnknownLineExample(lastValue: int, hasHandler: bool)
    ensures AbsorbStep([], lastValue, hasHandler, "READY\n") == ReadState([], lastValue, [])
  {
    assert CompleteLines([] + "READY\n") == ["READY"] && Fragment([] + "READY\n") == [] by {
      calc {
        Terminated(["READY"]) + [];
        "READY" + "\n" + Terminated([]);
        "READY\n";
      }
      assert [] + "READY\n" == "READY\n";
      SplitTerminated(["READY"], []);
    }
    assert TrimAll(["READY"]) == ["READY"] by {
      TrimPadded([], "READY", []);
      assert [] + "READY" + [] == "READY";
    }
    assert Feed(lastValue, hasHandler, ["READY"]) == Run([], lastValue) by {
      assert !(Tag <= "READY");
      assert ["READY"][..0] == [];
    }
  }

  /** The outcome of asking the host for a port and opening it. */
  datatype PortOutcome = PortDenied | OpenFailed | Opened

  /** The serial adapter. `hasPort` and `hasReader` stand for the non-null
      `port` and `reader` handles, `hasDialHandler` for a set `onDialChange`
      callback, and `buffer` for the read loop's pending text. */
  class ArduinoSerial {
    var hasPort: bool
    var hasReader: bool
    var isConnected: bool
    var hasDialHandler: bool
    var lastValue: int
    var buffer: string

    /** The read loop's buffer never holds a complete line. */
    ghost predicate Valid()
      reads this
    {
      '\n' !in buffer
    }

    constructor ()
      ensures Valid()
      ensures !hasPort && !hasReader && !isConnected && !hasDialHandler
      ensures lastValue == 0 && buffer == []
    {
      hasPort, hasReader, isConnected, hasDialHandler := false, false, false, false;
      lastValue, buffer := 0, [];
    }

    /** `connect()`: with serial support, a granted port that opens marks the
        adapter connected and starts reading; `lastValue` is kept from any
        earlier session. */
    method Connect(serialSupported: bool, outcome: PortOutcome) returns (r: ConnectResult)
      requires Valid()
      modifies this
      ensures Valid()
      ensures !serialSupported ==> r == Unsupported && unchanged(this)
      ensures serialSupported && outcome == PortDenied ==> r == Failed && unchanged(this)
      ensures serialSupported && outcome == OpenFailed ==>
        r == Failed && hasPort && hasReader == old(hasReader) && isConnected == old(isConnected)
        && buffer == old(buffer)
      ensures serialSupported && outcome == Opened ==>
        r == Connected && hasPort && hasReader && isConnected && buffer == []
      ensures lastValue == old(lastValue) && hasDialHandler == old(hasDialHandler)
    {
      if !serialSupported {
        return Unsupported;
      }
      match outcome
      case PortDenied =>
        r := Failed;
      case OpenFailed =>
        hasPort := true;
        r := Failed;
      case Opened =>
        hasPort := true;
        isConnected := true;
        OpenReader();
        r := Connected;
    }

    /** The start of `startReading()`: without a port it does nothing;
        otherwise it takes a reader and starts with an empty buffer. */
    method OpenReader()
      requires Valid()
      modifies this`hasReader, this`buffer
      ensures Valid()
      ensures hasPort ==> hasReader && buffer == []
      ensures !hasPort ==> hasReader == old(hasReader) && buffer == old(buffer)
    {
      if hasPort {
        hasReader := true;
        buffer := [];
      }
    }

    /** `processLine(line)`. */
    method ProcessLine(line: string) returns (event: Option<SerialDial>)
      modifies this`lastValue
      ensures LineEffect(event, lastValue) == LineStep(old(lastValue), hasDialHandler, line)
    {
      event := None;
      if line == [] {
        return;
      }
      if Tag <= line {
        var rawValue := ParseInt(line[|Tag|..]);
        if rawValue.Some? {
          var delta := rawValue.value - lastValue;
          if delta != 0 && hasDialHandler {
            event := Some(SerialDial(rawValue.value, delta, if delta > 0 then Clockwise else Counterclockwise));
          }
          lastValue := rawValue.value;
        }
      }
    }

    /** One pass of the read loop for a chunk of decoded text. Afterwards
        the buffer holds no '\n', and the old buffer followed by the chunk
        is exactly the lines handed on, each with its '\n', then the new
        buffer. */
    method Absorb(chunk: string) returns (events: seq<SerialDial>)
      modifies this`buffer, this`lastValue
      ensures Valid()
      ensures old(buffer) + chunk == Terminated(CompleteLines(old(buffer) + chunk)) + buffer
      ensures ReadState(events, lastValue, buffer)
        == AbsorbStep(old(buffer), old(lastValue), hasDialHandler, chunk)
    {
      FramingFacts(buffer + chunk);
      buffer := buffer + chunk;
      var parts := Split(buffer);
      buffer := parts[|parts| - 1];
      var lines := parts[..|parts| - 1];
      assert buffer == Fragment(old(buffer) + chunk) && lines == CompleteLines(old(buffer) + chunk);
      events := ProcessLines(lines);
    }

    /** The `for` loop of the read loop: each line trimmed and processed in
        order. */
    method ProcessLines(lines: seq<string>) returns (events: seq<SerialDial>)
      modifies this`lastValue
      ensures Run(events, lastValue) == Feed(old(lastValue), hasDialHandler, TrimAll(lines))
    {
      events := [];
      for i := 0 to |lines|
        invariant Run(events, lastValue) == Feed(old(lastValue), hasDialHandler, TrimAll(lines[..i]))
      {
        FeedStep(old(lastValue), hasDialHandler, lines, i);
        var event := ProcessLine(Trim(lines[i]));
        if event.Some? {
          events := events + [event.value];
        } else {
          assert events + [] == events;
        }
      }
      assert lines[..|lines|] == lines;
    }

    /** The rest of `startReading()` for a stream that delivers `chunks` and
        then ends: the events and the final state are those of absorbing all
        the text as a single chunk. */
    method ReadAll(chunks: seq<string>) returns (events: seq<SerialDial>)
      requires Valid()
      modifies this`buffer, this`lastValue
      ensures Valid()
      ensures ReadState(events, lastValue, buffer)
        == AbsorbStep(old(buffer), old(lastValue), hasDialHandler, Concat(chunks))
    {
      events := [];
      AbsorbEmpty(buffer, lastValue, hasDialHandler);
      assert Concat(chunks[..0]) == [];
      for i := 0 to |chunks|
        invariant Valid()
        invariant ReadState(events, lastValue, buffer)
          == AbsorbStep(old(buffer), old(lastValue), hasDialHandler, Concat(chunks[..i]))
      {
        assert Concat(chunks[..i + 1]) == Concat(chunks[..i]) + chunks[i] by {
          assert chunks[..i + 1] == chunks[..i] + [chunks[i]];
          ConcatAppend(chunks[..i], [chunks[i]]);
          assert Concat([chunks[i]]) == chunks[i] + [];
        }
        AbsorbConcat(old(buffer), old(lastValue), hasDialHandler, Concat(chunks[..i]), chunks[i]);
        var more := Absorb(chunks[i]);
        events := events + more;
      }
      assert chunks[..|chunks|] == chunks;
    }

    /** `disconnect()`. `cancelResolves` and `closeResolves` say whether
        `reader.cancel()` and `port.close()` resolve; each is awaited only
        when its handle is set. A rejection ends the call there: the handles
        not yet released and the connection flag stay as they were. When
        both steps complete there is no reader, no port and no connection,
        and `lastValue`, the handler and the buffer are kept, so a second
        call then changes nothing. */
    method Disconnect(cancelResolves: bool, closeResolves: bool) returns (ok: bool)
      modifies this`hasReader, this`hasPort, this`isConnected
      ensures ok <==> (old(hasReader) ==> cancelResolves) && (old(hasPort) ==> closeResolves)
      ensures ok ==> !hasReader && !hasPort && !isConnected
      ensures old(hasReader) && !cancelResolves ==> unchanged(this)
      ensures (old(hasReader) ==> cancelResolves) && old(hasPort) && !closeResolves ==>
        !hasReader && hasPort && isConnected == old(isConnected)
    {
      if hasReader {
        if !cancelResolves {
          return false;
        }
        hasReader := false;
      }
      if hasPort {
        if !closeResolves {
          return false;
        }
        hasPort := false;
      }
      isConnected := false;
      ok := true;
    }

    /** `setDialChangeHandler(callback)`; `present` is whether the callback
        is truthy. */
    method SetDialChangeHandler(present: bool)
      modifies this`hasDialHandler
      ensures hasDialHandler == present
    {
      hasDialHandler := present;
    }
  }
}
