/** The server's `/api/arduino` endpoint: a POST validates a device message
    and relays it, as an event-stream frame, to every open GET stream; a GET
    opens such a stream. */
module ArduinoEndpoint {
  import opened Dial
  import opened Json
  import opened Lines

  /** Each open GET stream is known by an id. */
  type ListenerId = nat

  /** A POST body: one that `request.json()` cannot parse, or the parsed
      value together with its `JSON.stringify` text. */
  datatype Request = Unparsable | Parsed(value: JsonValue, serialized: string)

  datatype ResponseBody = Success | Error(message: string)

  /** A JSON response: its HTTP status and body. */
  datatype Response = Response(status: nat, body: ResponseBody)

  /** An event-stream frame carrying one `data` line: for a payload
      without a line feed, exactly the line "data: " + payload and an empty
      line, which dispatches it. */
  function Frame(json: string): (f: string)
    ensures '\n' !in json ==> CompleteLines(f) == ["data: " + json, ""] && Fragment(f) == []
  {
    FrameSplits(json);
    "data: " + json + "\n\n"
  }

  lemma FrameSplits(json: string)
    ensures var f := "data: " + json + "\n\n";
      '\n' !in json ==> CompleteLines(f) == ["data: " + json, ""] && Fragment(f) == []
  {
    if '\n' in json {
      return;
    }
    var line := "data: " + json;
    assert '\n' !in line;
    assert [line, ""][1..] == [""] && [""][1..] == [];
    calc {
      Terminated([line, ""]) + [];
      line + "\n" + ("" + "\n" + Terminated([]));
      line + "\n\n";
    }
    SplitTerminated([line, ""], []);
  }

  /** `JSON.stringify({ type: 'connected' })`. */
  const ConnectedJson := "{\"type\":\"connected\"}"

  /** The frame every new stream starts with. */
  const ConnectedFrame := Frame(ConnectedJson)

  /** The outcome of checking a POST body: the frame to relay, or the error
      to answer with. */
  datatype Verdict = Accept(frame: string) | Reject(message: string)

  /** The checks `POST` makes before relaying: a body that does not parse,
      or parses to `null` so that reading `type` throws, is "Invalid JSON";
      one whose `type` is missing or falsy is "Missing type field". */
  function Validate(request: Request): (v: Verdict)
    ensures v == Reject("Invalid JSON") <==> request.Unparsable? || request.value == JNull
    ensures v == Reject("Missing type field") <==>
      request.Parsed? && request.value != JNull && !Truthy(Property(request.value, "type"))
    ensures v.Accept? <==>
      request.Parsed? && request.value != JNull && Truthy(Property(request.value, "type"))
    ensures v.Accept? ==> v.frame == Frame(request.serialized)
  {
    if request.Unparsable? || request.value == JNull then Reject("Invalid JSON")
    else if !Truthy(Property(request.value, "type")) then Reject("Missing type field")
    else Accept(Frame(request.serialized))
  }

  /** The response `POST` returns for a verdict: 200 with `{success: true}`,
      or 400 with the error. */
  function Answer(v: Verdict): (r: Response)
    ensures r.status == 200 <==> v.Accept?
    ensures r.body.Error? <==> v.Reject?
    ensures v.Reject? ==> r == Response(400, Error(v.message))
  {
    match v
    case Accept(_) => Response(200, Success)
    case Reject(message) => Response(400, Error(message))
  }

  /** The streams after `frame` is written to each of `recipients`. */
  function Delivered(streams: map<ListenerId, seq<string>>, recipients: set<ListenerId>, frame: string)
    : (r: map<ListenerId, seq<string>>)
    ensures r.Keys == streams.Keys
    ensures forall l :: l in streams && l !in recipients ==> r[l] == streams[l]
    ensures forall l :: l in streams && l in recipients ==> r[l] == streams[l] + [frame]
  {
    map l | l in streams :: if l in recipients then streams[l] + [frame] else streams[l]
  }

  /** The text of the `data` field lines of an event, with their '\n'. */
  function FieldData(line: string): string
  {
    if line != [] && line[0] == ':' then []
    else
      var i := ColonIndex(line);
      var name := line[..i];
      var value := if i < |line| then line[i + 1..] else [];
      var value := if value != [] && value[0] == ' ' then value[1..] else value;
      if name == "data" then value + "\n" else []
  }

  /** The position of the first ':' in `line`, or `|line|` if it has none. */
  function ColonIndex(line: string): (i: nat)
    ensures i <= |line|
    ensures i < |line| ==> line[i] == ':'
    ensures forall k :: 0 <= k < i ==> line[k] != ':'
  {
    if line == [] then 0
    else if line[0] == ':' then 0
    else 1 + ColonIndex(line[1..])
  }

  /** The `data` of the message events a receiver dispatches on reading
      `lines`, starting with `buffer` already collected: an empty line ends
      an event, which is dispatched (without the last '\n') unless no data
      was collected. */
  function Dispatched(lines: seq<string>, buffer: string): seq<string>
  {
    if lines == [] then []
    else if lines[0] == [] then
      (if buffer == [] then [] else [buffer[..|buffer| - 1]]) + Dispatched(lines[1..], [])
    else Dispatched(lines[1..], buffer + FieldData(lines[0]))
  }

  /** The messages a stream carries, as a receiver reads them. */
  function EventStreamData(stream: string): seq<string>
  {
    Dispatched(CompleteLines(stream), [])
  }

  /** The lines a frame consists of. */
  function FrameLines(payloads: seq<string>): seq<string>
  {
    if payloads == [] then [] else ["data: " + payloads[0], ""] + FrameLines(payloads[1..])
  }

  function Frames(payloads: seq<string>): (fs: seq<string>)
    ensures |fs| == |payloads|
    ensures forall i :: 0 <= i < |payloads| ==> fs[i] == Frame(payloads[i])
  {
    if payloads == [] then [] else [Frame(payloads[0])] + Frames(payloads[1..])
  }

  lemma {:induction false} FrameLinesTerminated(payloads: seq<string>)
    requires forall i :: 0 <= i < |payloads| ==> '\n' !in payloads[i]
    ensures Terminated(FrameLines(payloads)) == Concat(Frames(payloads))
    ensures AllNoNewline(FrameLines(payloads))
  {
    if payloads != [] {
      var p := payloads[0];
      FrameLinesTerminated(payloads[1..]);
      TerminatedAppend(["data: " + p, ""], FrameLines(payloads[1..]));
      assert Terminated(["data: " + p, ""]) == Frame(p) by {
        assert ["data: " + p, ""][1..] == [""];
        assert [""][1..] == [];
      }
      assert Frames(payloads)[1..] == Frames(payloads[1..]);
      var ls := ["data: " + p, ""] + FrameLines(payloads[1..]);
      forall i | 0 <= i < |ls|
        ensures '\n' !in ls[i]
      {
        if i == 0 {
          assert ls[0] == "data: " + p;
        } else if i >= 2 {
          assert ls[i] == FrameLines(payloads[1..])[i - 2];
        }
      }
    }
  }

  lemma DataLine(p: string)
    ensures FieldData("data: " + p) == p + "\n"
  {
    var line := "data: " + p;
    assert line[4] == ':';
    assert ColonIndex(line) == 4 by {
      assert line[..4] == "data";
    }
    assert line[5..] == " " + p;
  }

  lemma {:induction false} DispatchedFrames(payloads: seq<string>)
    ensures Dispatched(FrameLines(payloads), []) == payloads
  {
    if payloads != [] {
      var p := payloads[0];
      var rest := FrameLines(payloads[1..]);
      var ls := ["data: " + p, ""] + rest;
      DataLine(p);
      assert ls[1..] == [""] + rest;
      assert ([""] + rest)[1..] == rest;
      var buffer := [] + FieldData("data: " + p);
      assert buffer[..|buffer| - 1] == p;
      DispatchedFrames(payloads[1..]);
    }
  }

  /** Reading a stream back recovers, in order, the serialised payloads of
      the frames written to it, provided none contains a line feed (which
      `JSON.stringify` without indentation never produces). */
  lemma FramesReadBack(payloads: seq<string>)
    requires forall i :: 0 <= i < |payloads| ==> '\n' !in payloads[i]
    ensures EventStreamData(Concat(Frames(payloads))) == payloads
  {
    FrameLinesTerminated(payloads);
    SplitTerminated(FrameLines(payloads), []);
    assert Terminated(FrameLines(payloads)) + [] == Terminated(FrameLines(payloads));
    DispatchedFrames(payloads);
  }

  lemma ConnectedJsonOneLine()
    ensures '\n' !in ConnectedJson
  {
  }

  /** A stream opened by `GET` and then sent the frames of accepted
      messages reads back as the connected greeting followed by those
      messages. */
  lemma SubscriberReadsBack(payloads: seq<string>)
    requires forall i :: 0 <= i < |payloads| ==> '\n' !in payloads[i]
    ensures EventStreamData(Concat([ConnectedFrame] + Frames(payloads))) == [ConnectedJson] + payloads
  {
    var all := [ConnectedJson] + payloads;
    assert Frames(all) == [ConnectedFrame] + Frames(payloads) by {
      assert all[0] == ConnectedJson && all[1..] == payloads;
    }
    ConnectedJsonOneLine();
    assert forall i :: 0 <= i < |all| ==> '\n' !in all[i] by {
      forall i | 0 <= i < |all|
        ensures '\n' !in all[i]
      {
        if i > 0 {
          assert all[i] == payloads[i - 1];
        }
      }
    }
    FramesReadBack(all);
  }

  /** The process-wide registry of open streams. `streams` records every
      frame written to each stream opened so far; `clients` holds the
      streams still registered for relaying; `closed` those whose request
      was aborted. */
  class Endpoint {
    var clients: set<ListenerId>
    var streams: map<ListenerId, seq<string>>
    var closed: set<ListenerId>

    ghost predicate Valid()
      reads this
    {
      clients <= streams.Keys && closed <= streams.Keys && clients !! closed
    }

    constructor ()
      ensures Valid() && clients == {} && streams == map[] && closed == {}
    {
      clients, streams, closed := {}, map[], {};
    }

    /** `POST`: a valid message is written to every registered stream;
        `failing` holds the streams whose write throws, which are
        deregistered and receive nothing. An invalid message writes
        nothing. */
    method Post(request: Request, failing: set<ListenerId>) returns (response: Response)
      requires Valid()
      modifies this
      ensures Valid()
      ensures response == Answer(Validate(request))
      ensures Validate(request).Reject? ==>
        clients == old(clients) && streams == old(streams)
      ensures Validate(request).Accept? ==>
        && clients == old(clients) - failing
        && streams == Delivered(old(streams), old(clients) - failing, Validate(request).frame)
      ensures closed == old(closed)
    {
      var verdict := Validate(request);
      if verdict.Reject? {
        return Response(400, Error(verdict.message));
      }
      Broadcast(verdict.frame, failing);
      response := Response(200, Success);
    }

    /** The `forEach` over the registry: each registered stream is written
        to once; one that fails is deleted from the registry and the loop
        goes on with the rest. */
    method Broadcast(frame: string, failing: set<ListenerId>)
      requires Valid()
      modifies this
      ensures Valid()
      ensures clients == old(clients) - failing
      ensures streams == Delivered(old(streams), old(clients) - failing, frame)
      ensures closed == old(closed)
    {
      var remaining := clients;
      ghost var visited: set<ListenerId> := {};
      while remaining != {}
        invariant visited !! remaining && visited + remaining == old(clients)
        invariant clients == old(clients) - (visited * failing)
        invariant streams.Keys == old(streams).Keys
        invariant forall k :: k in streams ==>
          streams[k] == if k in visited - failing then old(streams)[k] + [frame] else old(streams)[k]
        invariant closed == old(closed)
        decreases remaining
      {
        var l :| l in remaining;
        if l in failing {
          clients := clients - {l};
        } else {
          streams := streams[l := streams[l] + [frame]];
        }
        remaining := remaining - {l};
        visited := visited + {l};
      }
      assert streams == Delivered(old(streams), old(clients) - failing, frame);
    }

    /** `GET`: a new stream receives the connected frame and is then
        registered. */
    method Get(l: ListenerId)
      requires Valid() && l !in streams
      modifies this
      ensures Valid()
      ensures streams == old(streams)[l := [ConnectedFrame]]
      ensures clients == old(clients) + {l} && closed == old(closed)
    {
      streams := streams[l := [ConnectedFrame]];
      clients := clients + {l};
    }

    /** The abort of a GET request: that stream is deregistered, whether or
        not a failed write already removed it, and closed. */
    method Abort(l: ListenerId)
      requires Valid() && l in streams
      modifies this
      ensures Valid()
      ensures clients == old(clients) - {l} && closed == old(closed) + {l}
      ensures streams == old(streams)
    {
      clients := clients - {l};
      closed := closed + {l};
    }
  }
}
