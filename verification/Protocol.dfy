/** Requests, the events that answer them, and what each operation's handler
    sends, in order, as a script the dispatch task executes. */
module Protocol {
  import opened Common

  type Uuid = nat

  datatype EventKind =
    | Line(text: string)
    | Record(value: string)
    | Progress(done: nat, total: nat)
    | FileProgress(fileIndex: nat, fileTotal: nat, fileName: string, done: nat, total: nat)
    | Done
    | Error(message: string)

  datatype Event = Event(reqId: Uuid, kind: EventKind)

  predicate IsTerminal(e: Event) {
    e.kind.Done? || e.kind.Error?
  }

  /** Any number of non-terminal events, then exactly one Done or Error. */
  predicate WellFormedStream(events: seq<Event>, id: Uuid) {
    && |events| > 0
    && (forall i :: 0 <= i < |events| ==> events[i].reqId == id)
    && (forall i :: 0 <= i < |events| ==> (IsTerminal(events[i]) <==> i == |events| - 1))
  }

  /** What a download reports while it runs. */
  datatype ProgressEvent =
    | FileStart(index: nat, count: nat, name: string)
    | BytesReceived(done: nat, total: nat)

  datatype FileRef = FileRef(index: nat, count: nat, name: string)

  /** The next thing a dispatch task does. `Download` runs a transfer, which
      reports `events` and ends with an error message or without one; `Fail`
      returns an error; `Notify` asks the server to shut down. */
  datatype Instr =
    | Emit(kind: EventKind)
    | Fail(message: string)
    | Download(events: seq<ProgressEvent>, error: Option<string>)
    | Notify

  function ProgressKind(cur: Option<FileRef>, done: nat, total: nat): EventKind {
    match cur
    case Some(f) => FileProgress(f.index, f.count, f.name, done, total)
    case None => Progress(done, total)
  }

  /** The progress task: bytes are tagged with the file started last. */
  function Forward(id: Uuid, cur: Option<FileRef>, ps: seq<ProgressEvent>): seq<Event>
    decreases |ps|
  {
    if ps == [] then []
    else
      match ps[0]
      case FileStart(i, n, name) => Forward(id, Some(FileRef(i, n, name)), ps[1..])
      case BytesReceived(d, t) => [Event(id, ProgressKind(cur, d, t))] + Forward(id, cur, ps[1..])
  }

  /** Everything a script sends when it runs to its end, one step after the
      other. An error that ends it early is sent as the last event. */
  function Events(id: Uuid, script: seq<Instr>): seq<Event>
    decreases |script|
  {
    if script == [] then []
    else
      match script[0]
      case Emit(k) => [Event(id, k)] + Events(id, script[1..])
      case Fail(m) => [Event(id, Error(m))]
      case Download(ps, error) =>
        Forward(id, None, ps) + (if error.Some? then [Event(id, Error(error.value))] else Events(id, script[1..]))
      case Notify => Events(id, script[1..])
  }

  // The handlers

  datatype Op =
    | NodeId(qrCode: bool)
    | Import | BlobList | BlobRemove | BlobAttach | BlobDetach
    | RingNew | RingList | RingAdd | RingRemove | RingMembers
    | PeerAdd | PeerList | PeerRemove
    | Receive
    | GrantOp | RevokeOp | Grants | RemoteBlobList
    | Shutdown

  /** A printed line, a record, or a call that fails. */
  datatype Output = Text(text: string) | Data(value: string) | Failure(message: string)

  /** The outcomes of the calls a handler makes, which its script depends on:
      the node's own id, its printed lines, what it sends after them, the QR code, and the
      transfer of a receive. */
  datatype Outcomes = Outcomes(
    peerId: string,
    lines: Result<seq<string>, string>,
    outputs: seq<Output>,
    qr: Result<seq<string>, string>,
    destination: Result<seq<string>, string>,
    transfer: seq<ProgressEvent>,
    transferError: Option<string>)

  function EmitOutputs(outputs: seq<Output>): (script: seq<Instr>)
    ensures |script| == |outputs|
  {
    seq(|outputs|, i requires 0 <= i < |outputs| =>
      match outputs[i]
      case Text(t) => Emit(Line(t))
      case Data(v) => Emit(Record(v))
      case Failure(m) => Fail(m))
  }

  function EmitLines(lines: seq<string>): (script: seq<Instr>)
    ensures |script| == |lines|
  {
    seq(|lines|, i requires 0 <= i < |lines| => Emit(Line(lines[i])))
  }

  /** Compute the lines or fail, send them, send the rest, finish. */
  function LinesThenOutputs(o: Outcomes): seq<Instr> {
    match o.lines
    case Err(m) => [Fail(m)]
    case Ok(lines) => EmitLines(lines) + EmitOutputs(o.outputs) + [Emit(Done)]
  }

  function Handler(op: Op, o: Outcomes): seq<Instr> {
    match op
    case NodeId(qrCode) =>
      EmitLines([o.peerId])
      + (if !qrCode then [] else match o.qr case Err(m) => [Fail(m)] case Ok(art) => EmitLines([""] + art))
      + EmitOutputs([Data(o.peerId)]) + [Emit(Done)]
    case Receive =>
      (match o.destination case Err(m) => [Fail(m)] case Ok(lines) => EmitLines(lines))
      + [Download(o.transfer, o.transferError)] + EmitLines(["Transfer complete."]) + [Emit(Done)]
    case Shutdown => [Emit(Done), Notify]
    case RingAdd => LinesThenOutputs(o.(outputs := []))
    case RingRemove => LinesThenOutputs(o.(outputs := []))
    case PeerRemove => LinesThenOutputs(o.(outputs := []))
    case RingNew => LinesThenOutputs(o)
    case RingList => LinesThenOutputs(o)
    case RingMembers => LinesThenOutputs(o)
    case PeerAdd => LinesThenOutputs(o)
    case PeerList => LinesThenOutputs(o)
    case _ => EmitOutputs(o.outputs) + [Emit(Done)]
  }

  // Every handler's stream is well-formed

  /** Instructions that may come before the end: they send no terminal event. */
  predicate IsBody(x: Instr) {
    match x
    case Emit(k) => !k.Done? && !k.Error?
    case Fail(_) => true
    case Download(_, _) => true
    case Notify => false
  }

  lemma {:induction false} ForwardSendsNoTerminal(id: Uuid, cur: Option<FileRef>, ps: seq<ProgressEvent>)
    ensures forall i :: 0 <= i < |Forward(id, cur, ps)| ==>
      Forward(id, cur, ps)[i].reqId == id && !IsTerminal(Forward(id, cur, ps)[i])
    decreases |ps|
  {
    if ps != [] {
      match ps[0]
      case FileStart(i, n, name) => ForwardSendsNoTerminal(id, Some(FileRef(i, n, name)), ps[1..]);
      case BytesReceived(_, _) => ForwardSendsNoTerminal(id, cur, ps[1..]);
    }
  }

  /** The end of a script: Done, and after it nothing that sends. */
  predicate IsTail(tail: seq<Instr>) {
    tail == [Emit(Done)] || tail == [Emit(Done), Notify]
  }

  predicate IsBodyOnly(script: seq<Instr>) {
    forall i :: 0 <= i < |script| ==> IsBody(script[i])
  }

  lemma {:induction false} BodyThenDoneIsWellFormed(id: Uuid, body: seq<Instr>, tail: seq<Instr>)
    requires IsBodyOnly(body)
    requires IsTail(tail)
    ensures WellFormedStream(Events(id, body + tail), id)
    decreases |body|
  {
    if body == [] {
      assert body + tail == tail;
      assert tail[1..] == [] || tail[1..] == [Notify];
      assert [Notify][1..] == [];
      assert Events(id, tail[1..]) == [];
    } else {
      assert (body + tail)[0] == body[0] && (body + tail)[1..] == body[1..] + tail;
      BodyThenDoneIsWellFormed(id, body[1..], tail);
      if body[0].Download? {
        ForwardSendsNoTerminal(id, None, body[0].events);
      }
    }
  }

  /** A handler is a body and its end, except that one that cannot even compute
      its lines only fails. */
  ghost predicate BodyAndTail(script: seq<Instr>, body: seq<Instr>, tail: seq<Instr>) {
    script == body + tail && IsBodyOnly(body) && IsTail(tail)
  }

  lemma EmittedAreBody(lines: seq<string>, outputs: seq<Output>)
    ensures IsBodyOnly(EmitLines(lines)) && IsBodyOnly(EmitOutputs(outputs))
  {
  }

  lemma BodyConcat(a: seq<Instr>, b: seq<Instr>)
    requires IsBodyOnly(a) && IsBodyOnly(b)
    ensures IsBodyOnly(a + b)
  {
  }

  lemma LinesThenOutputsShape(o: Outcomes) returns (body: seq<Instr>, tail: seq<Instr>)
    ensures o.lines.Ok? ==> BodyAndTail(LinesThenOutputs(o), body, tail)
    ensures o.lines.Err? ==> LinesThenOutputs(o) == [Fail(o.lines.error)]
  {
    hide IsBodyOnly;
    body, tail := [], [Emit(Done)];
    if o.lines.Ok? {
      EmittedAreBody(o.lines.value, o.outputs);
      body := EmitLines(o.lines.value) + EmitOutputs(o.outputs);
      BodyConcat(EmitLines(o.lines.value), EmitOutputs(o.outputs));
    }
  }

  lemma NodeIdShape(qrCode: bool, o: Outcomes) returns (body: seq<Instr>)
    ensures BodyAndTail(Handler(NodeId(qrCode), o), body, [Emit(Done)])
  {
    hide IsBodyOnly;
    var lines, data := EmitLines([o.peerId]), EmitOutputs([Data(o.peerId)]);
    var qr := if !qrCode then [] else match o.qr case Err(m) => [Fail(m)] case Ok(art) => EmitLines([""] + art);
    EmittedAreBody([o.peerId], [Data(o.peerId)]);
    OneOrLines(o.qr, [""]);
    BodyConcat(lines, qr);
    BodyConcat(lines + qr, data);
    body := lines + qr + data;
  }

  lemma OneOrLines(r: Result<seq<string>, string>, first: seq<string>)
    ensures IsBodyOnly([]) && IsBodyOnly(match r case Err(m) => [Fail(m)] case Ok(lines) => EmitLines(first + lines))
  {
  }

  lemma ReceiveShape(o: Outcomes) returns (body: seq<Instr>)
    ensures BodyAndTail(Handler(Receive, o), body, [Emit(Done)])
  {
    var first := match o.destination case Err(m) => [Fail(m)] case Ok(lines) => EmitLines(lines);
    body := first + [Download(o.transfer, o.transferError)] + EmitLines(["Transfer complete."]);
  }

  lemma LineHandlerIsWellFormed(id: Uuid, o: Outcomes)
    ensures WellFormedStream(Events(id, LinesThenOutputs(o)), id)
  {
    hide WellFormedStream, Events;
    var body, tail := LinesThenOutputsShape(o);
    if o.lines.Ok? {
      BodyThenDoneIsWellFormed(id, body, tail);
    } else {
      FailIsWellFormed(id, o.lines.error);
    }
  }

  lemma FailIsWellFormed(id: Uuid, message: string)
    ensures WellFormedStream(Events(id, [Fail(message)]), id)
  {
    assert Events(id, [Fail(message)]) == [Event(id, Error(message))];
  }

  lemma OutputHandlerIsWellFormed(id: Uuid, outputs: seq<Output>)
    ensures WellFormedStream(Events(id, EmitOutputs(outputs) + [Emit(Done)]), id)
  {
    EmittedAreBody([], outputs);
    BodyThenDoneIsWellFormed(id, EmitOutputs(outputs), [Emit(Done)]);
  }

  /** Whatever the calls of a handler return, the events of a request carry its
      id and are non-terminal ones followed by exactly one Done or Error. */
  lemma EveryHandlerIsWellFormed(id: Uuid, op: Op, o: Outcomes)
    ensures WellFormedStream(Events(id, Handler(op, o)), id)
  {
    hide WellFormedStream, Events, LinesThenOutputs, IsBodyOnly;
    LineHandlerIsWellFormed(id, o);
    LineHandlerIsWellFormed(id, o.(outputs := []));
    OutputHandlerIsWellFormed(id, o.outputs);
    if op.NodeId? {
      var body := NodeIdShape(op.qrCode, o);
      BodyThenDoneIsWellFormed(id, body, [Emit(Done)]);
    } else if op.Receive? {
      var body := ReceiveShape(o);
      BodyThenDoneIsWellFormed(id, body, [Emit(Done)]);
    } else if op.Shutdown? {
      assert [] + [Emit(Done), Notify] == [Emit(Done), Notify];
      BodyThenDoneIsWellFormed(id, [], [Emit(Done), Notify]);
    }
  }
}
