/** What the answer to each operation says, event by event, in terms of the
    outcomes of the calls that its handler makes. */
module Answers {
  import opened Common
  import opened Protocol
  import opened Connection

  // Lines, then outputs

  /** One event per line, then one per output, then Done; or, if output `k` is
      the first call that fails, its error after the outputs before it. */
  ghost predicate SaysUpTo(answer: seq<Event>, id: Uuid, lines: seq<string>, outputs: seq<Output>, k: nat) {
    && k <= |outputs|
    && (forall i :: 0 <= i < k ==> !outputs[i].Failure?)
    && (k < |outputs| ==> outputs[k].Failure?)
    && |answer| == |lines| + k + 1
    && (forall i :: 0 <= i < |lines| ==> answer[i] == Event(id, Line(lines[i])))
    && (forall i :: 0 <= i < k && outputs[i].Text? ==> answer[|lines| + i] == Event(id, Line(outputs[i].text)))
    && (forall i :: 0 <= i < k && outputs[i].Data? ==> answer[|lines| + i] == Event(id, Record(outputs[i].value)))
    && answer[|lines| + k] == Event(id, if k < |outputs| then Error(outputs[k].message) else Done)
  }

  ghost predicate Says(answer: seq<Event>, id: Uuid, lines: seq<string>, outputs: seq<Output>) {
    exists k: nat :: SaysUpTo(answer, id, lines, outputs, k)
  }

  function LineEvents(id: Uuid, lines: seq<string>): (events: seq<Event>)
    ensures |events| == |lines|
  {
    seq(|lines|, i requires 0 <= i < |lines| => Event(id, Line(lines[i])))
  }

  lemma {:induction false} EventsOfLines(id: Uuid, lines: seq<string>, rest: seq<Instr>)
    ensures Events(id, EmitLines(lines) + rest) == LineEvents(id, lines) + Events(id, rest)
    decreases |lines|
  {
    if lines == [] {
      assert EmitLines(lines) + rest == rest;
    } else {
      var script := EmitLines(lines) + rest;
      assert script[0] == Emit(Line(lines[0])) && script[1..] == EmitLines(lines[1..]) + rest;
      EventsOfLines(id, lines[1..], rest);
      assert LineEvents(id, lines) == [Event(id, Line(lines[0]))] + LineEvents(id, lines[1..]);
    }
  }

  lemma {:induction false} OutputsSay(id: Uuid, outputs: seq<Output>) returns (k: nat)
    ensures SaysUpTo(Events(id, EmitOutputs(outputs) + [Emit(Done)]), id, [], outputs, k)
  {
    var script := EmitOutputs(outputs) + [Emit(Done)];
    if outputs == [] {
      assert script == [Emit(Done)] && script[1..] == [];
      k := 0;
    } else if outputs[0].Failure? {
      assert script[0] == Fail(outputs[0].message);
      k := 0;
    } else {
      assert script[1..] == EmitOutputs(outputs[1..]) + [Emit(Done)];
      var rest := OutputsSay(id, outputs[1..]);
      assert Events(id, script)[1..] == Events(id, script[1..]);
      OneMoreOutput(id, outputs, Events(id, script), rest);
      k := rest + 1;
    }
  }

  lemma OneMoreOutput(id: Uuid, outputs: seq<Output>, answer: seq<Event>, k: nat)
    requires outputs != [] && answer != [] && SaysUpTo(answer[1..], id, [], outputs[1..], k)
    requires match outputs[0]
      case Text(t) => answer[0] == Event(id, Line(t))
      case Data(v) => answer[0] == Event(id, Record(v))
      case Failure(_) => false
    ensures SaysUpTo(answer, id, [], outputs, k + 1)
  {
    var later, rest := answer[1..], outputs[1..];
    assert forall i :: 0 <= i < |later| ==> later[i] == answer[i + 1];
    forall i | 0 <= i < k + 1 ensures !outputs[i].Failure?
      ensures outputs[i].Text? ==> answer[i] == Event(id, Line(outputs[i].text))
      ensures outputs[i].Data? ==> answer[i] == Event(id, Record(outputs[i].value))
    {
      if i > 0 {
        assert rest[i - 1] == outputs[i] && later[i - 1] == answer[i];
      }
    }
    assert later[k] == answer[k + 1];
    assert k < |rest| ==> rest[k] == outputs[k + 1];
  }

  lemma LinesInFront(id: Uuid, lines: seq<string>, outputs: seq<Output>, answer: seq<Event>, k: nat)
    requires SaysUpTo(answer, id, [], outputs, k)
    ensures SaysUpTo(LineEvents(id, lines) + answer, id, lines, outputs, k)
  {
    var all := LineEvents(id, lines) + answer;
    assert forall i :: 0 <= i < |answer| ==> all[|lines| + i] == answer[i];
  }

  lemma LinesThenOutputsSay(id: Uuid, lines: seq<string>, outputs: seq<Output>)
    ensures Says(Events(id, EmitLines(lines) + EmitOutputs(outputs) + [Emit(Done)]), id, lines, outputs)
  {
    hide SaysUpTo;
    var rest := EmitOutputs(outputs) + [Emit(Done)];
    assert EmitLines(lines) + EmitOutputs(outputs) + [Emit(Done)] == EmitLines(lines) + rest;
    EventsOfLines(id, lines, rest);
    var k := OutputsSay(id, outputs);
    LinesInFront(id, lines, outputs, Events(id, rest), k);
  }

  lemma OnlyAnError(id: Uuid, message: string, rest: seq<Instr>)
    ensures Events(id, [Fail(message)] + rest) == [Event(id, Error(message))]
  {
  }

  // Every operation

  /** Operations that first compute all their lines, and send those only. */
  lemma LinesOnlyAnswer(r: Request)
    requires r.op.RingAdd? || r.op.RingRemove? || r.op.PeerRemove?
    ensures match r.outcomes.lines
      case Err(m) => Answer(r) == [Event(r.id, Error(m))]
      case Ok(lines) => Says(Answer(r), r.id, lines, [])
  {
    hide Events, Says;
    match r.outcomes.lines
    case Err(m) =>
      OnlyAnError(r.id, m, []);
      assert [Fail(m)] + [] == [Fail(m)];
    case Ok(lines) => LinesThenOutputsSay(r.id, lines, []);
  }

  /** Operations that send records, or make further calls, after their lines. */
  lemma LinesThenRecordsAnswer(r: Request)
    requires r.op.RingNew? || r.op.RingList? || r.op.RingMembers? || r.op.PeerAdd? || r.op.PeerList?
    ensures match r.outcomes.lines
      case Err(m) => Answer(r) == [Event(r.id, Error(m))]
      case Ok(lines) => Says(Answer(r), r.id, lines, r.outcomes.outputs)
  {
    hide Events, Says;
    match r.outcomes.lines
    case Err(m) =>
      OnlyAnError(r.id, m, []);
      assert [Fail(m)] + [] == [Fail(m)];
    case Ok(lines) => LinesThenOutputsSay(r.id, lines, r.outcomes.outputs);
  }

  /** Operations that send as they go. */
  lemma OutputsAnswer(r: Request)
    requires r.op.Import? || r.op.BlobList? || r.op.BlobRemove? || r.op.BlobAttach? || r.op.BlobDetach?
      || r.op.GrantOp? || r.op.RevokeOp? || r.op.Grants? || r.op.RemoteBlobList?
    ensures Says(Answer(r), r.id, [], r.outcomes.outputs)
  {
    hide Events, SaysUpTo;
    var k := OutputsSay(r.id, r.outcomes.outputs);
  }

  /** The id, the QR code if it was asked for and can be drawn, the record. */
  lemma NodeIdAnswer(r: Request)
    requires r.op.NodeId?
    ensures var id := r.outcomes.peerId;
      if !r.op.qrCode then Says(Answer(r), r.id, [id], [Data(id)])
      else
        match r.outcomes.qr
        case Err(m) => Answer(r) == [Event(r.id, Line(id)), Event(r.id, Error(m))]
        case Ok(art) => Says(Answer(r), r.id, [id, ""] + art, [Data(id)])
  {
    hide Events, Says;
    var o := r.outcomes;
    var end := EmitOutputs([Data(o.peerId)]) + [Emit(Done)];
    if !r.op.qrCode {
      LinesThenOutputsSay(r.id, [o.peerId], [Data(o.peerId)]);
      assert Handler(r.op, o) == EmitLines([o.peerId]) + EmitOutputs([Data(o.peerId)]) + [Emit(Done)];
    } else {
      match o.qr
      case Err(m) =>
        assert Handler(r.op, o) == EmitLines([o.peerId]) + ([Fail(m)] + end);
        EventsOfLines(r.id, [o.peerId], [Fail(m)] + end);
        OnlyAnError(r.id, m, end);
        assert LineEvents(r.id, [o.peerId]) == [Event(r.id, Line(o.peerId))];
      case Ok(art) =>
        var lines := [o.peerId, ""] + art;
        LinesThenOutputsSay(r.id, lines, [Data(o.peerId)]);
        assert EmitLines(lines) == EmitLines([o.peerId]) + EmitLines([""] + art);
        assert Handler(r.op, o) == EmitLines(lines) + EmitOutputs([Data(o.peerId)]) + [Emit(Done)];
    }
  }

  lemma ShutdownAnswer(r: Request)
    requires r.op.Shutdown?
    ensures Answer(r) == [Event(r.id, Done)]
  {
    assert [Emit(Done), Notify][1..] == [Notify] && [Notify][1..] == [];
  }

  // A receive

  /** How the answer to a receive ends. */
  function Ending(id: Uuid, error: Option<string>): (events: seq<Event>)
    ensures match error
      case Some(m) => events == [Event(id, Error(m))]
      case None => events == [Event(id, Line("Transfer complete.")), Event(id, Done)]
  {
    match error
    case Some(m) => [Event(id, Error(m))]
    case None => [Event(id, Line("Transfer complete.")), Event(id, Done)]
  }

  /** A refused destination is answered by its error alone: nothing is fetched.
      Otherwise the announcement comes first, then the progress of the transfer,
      then its outcome. */
  lemma ReceiveAnswer(r: Request)
    requires r.op.Receive?
    ensures match r.outcomes.destination
      case Err(m) => Answer(r) == [Event(r.id, Error(m))]
      case Ok(lines) =>
        Answer(r) == LineEvents(r.id, lines) + Forward(r.id, None, r.outcomes.transfer) + Ending(r.id, r.outcomes.transferError)
  {
    var o := r.outcomes;
    var last := EmitLines(["Transfer complete."]) + [Emit(Done)];
    assert last == [Emit(Line("Transfer complete.")), Emit(Done)];
    assert last[1..] == [Emit(Done)] && [Emit(Done)][1..] == [];
    var script := [Download(o.transfer, o.transferError)] + last;
    assert script[1..] == last;
    match o.destination
    case Err(m) =>
      OnlyAnError(r.id, m, script);
      assert Handler(r.op, o) == [Fail(m)] + script;
    case Ok(lines) =>
      EventsOfLines(r.id, lines, script);
      assert Events(r.id, [Emit(Done)]) == [Event(r.id, Done)];
      assert Events(r.id, last) == Ending(r.id, None);
      assert Events(r.id, script) == Forward(r.id, None, o.transfer) + Ending(r.id, o.transferError);
      assert Handler(r.op, o) == EmitLines(lines) + script;
  }

  function BytesBefore(ps: seq<ProgressEvent>, p: nat): nat
    requires p <= |ps|
  {
    if p == 0 then 0 else BytesBefore(ps, p - 1) + (if ps[p - 1].BytesReceived? then 1 else 0)
  }

  /** `q` is the last file start before position `p`. */
  predicate LastStart(ps: seq<ProgressEvent>, q: nat, p: nat) {
    q < p <= |ps| && ps[q].FileStart? && forall j :: q < j < p ==> ps[j].BytesReceived?
  }

  predicate NoStart(ps: seq<ProgressEvent>, p: nat) {
    p <= |ps| && forall j :: 0 <= j < p ==> ps[j].BytesReceived?
  }

  lemma {:induction false} BytesBeforeTail(ps: seq<ProgressEvent>, p: nat)
    requires 0 < p <= |ps|
    ensures BytesBefore(ps, p) == (if ps[0].BytesReceived? then 1 else 0) + BytesBefore(ps[1..], p - 1)
  {
    if p > 1 {
      BytesBeforeTail(ps, p - 1);
      assert ps[1..][p - 2] == ps[p - 1];
    }
  }

  /** `e` is the event for the bytes at `p`: of the file started last before, of
      `cur` if none was. */
  ghost predicate IsEventAt(id: Uuid, cur: Option<FileRef>, ps: seq<ProgressEvent>, p: nat, e: Event)
    requires p < |ps| && ps[p].BytesReceived?
  {
    && (NoStart(ps, p) ==> e == Event(id,
      match cur
      case None => Progress(ps[p].done, ps[p].total)
      case Some(f) => FileProgress(f.index, f.count, f.name, ps[p].done, ps[p].total)))
    && (forall q: nat :: LastStart(ps, q, p) ==>
      e == Event(id, FileProgress(ps[q].index, ps[q].count, ps[q].name, ps[p].done, ps[p].total)))
  }

  function CurrentAfter(cur: Option<FileRef>, p: ProgressEvent): Option<FileRef> {
    if p.FileStart? then Some(FileRef(p.index, p.count, p.name)) else cur
  }

  lemma EventAtInTail(id: Uuid, cur: Option<FileRef>, ps: seq<ProgressEvent>, p: nat, e: Event)
    requires 0 < p < |ps| && ps[p].BytesReceived? && ps[1..][p - 1] == ps[p]
    requires IsEventAt(id, CurrentAfter(cur, ps[0]), ps[1..], p - 1, e)
    ensures IsEventAt(id, cur, ps, p, e)
  {
    var tail := ps[1..];
    assert forall j :: 0 <= j < |tail| ==> tail[j] == ps[j + 1];
    forall q: nat | LastStart(ps, q, p)
      ensures if q == 0 then NoStart(tail, p - 1) else LastStart(tail, q - 1, p - 1) && ps[q] == tail[q - 1]
    {
    }
    assert NoStart(ps, p) ==> ps[0].BytesReceived? && NoStart(tail, p - 1);
  }

  lemma ForwardFirst(id: Uuid, cur: Option<FileRef>, ps: seq<ProgressEvent>)
    requires ps != []
    ensures var rest := Forward(id, CurrentAfter(cur, ps[0]), ps[1..]);
      Forward(id, cur, ps) == if ps[0].FileStart? then rest
        else [Event(id, ProgressKind(cur, ps[0].done, ps[0].total))] + rest
  {
  }

  lemma {:induction false} ForwardFrom(id: Uuid, cur: Option<FileRef>, ps: seq<ProgressEvent>, p: nat)
    requires p < |ps| && ps[p].BytesReceived?
    ensures var events, j := Forward(id, cur, ps), BytesBefore(ps, p);
      j < |events| && IsEventAt(id, cur, ps, p, events[j])
    decreases |ps|
  {
    ForwardFirst(id, cur, ps);
    if p > 0 {
      hide IsEventAt, Forward;
      assert ps[1..][p - 1] == ps[p];
      ForwardFrom(id, CurrentAfter(cur, ps[0]), ps[1..], p - 1);
      BytesBeforeTail(ps, p);
      EventAtInTail(id, cur, ps, p, Forward(id, cur, ps)[BytesBefore(ps, p)]);
    }
  }

  lemma {:induction false} ForwardCounts(id: Uuid, cur: Option<FileRef>, ps: seq<ProgressEvent>)
    ensures |Forward(id, cur, ps)| == BytesBefore(ps, |ps|)
    decreases |ps|
  {
    if ps != [] {
      BytesBeforeTail(ps, |ps|);
      ForwardCounts(id, CurrentAfter(cur, ps[0]), ps[1..]);
    }
  }

  /** The progress events of a transfer: one for each report of bytes, in order,
      with its numbers and the file started last before it, if any. */
  lemma ForwardSaysEachReport(id: Uuid, ps: seq<ProgressEvent>, p: nat)
    requires p < |ps| && ps[p].BytesReceived?
    ensures var events, j := Forward(id, None, ps), BytesBefore(ps, p);
      && |events| == BytesBefore(ps, |ps|) && j < |events|
      && (NoStart(ps, p) ==> events[j] == Event(id, Progress(ps[p].done, ps[p].total)))
      && (forall q: nat :: LastStart(ps, q, p) ==>
        events[j] == Event(id, FileProgress(ps[q].index, ps[q].count, ps[q].name, ps[p].done, ps[p].total)))
  {
    ForwardFrom(id, None, ps, p);
    ForwardCounts(id, None, ps);
  }

  // The outcome

  predicate NoFailure(outputs: seq<Output>) {
    forall i :: 0 <= i < |outputs| ==> !outputs[i].Failure?
  }

  /** No call that the operation makes has failed. */
  predicate NothingFailed(op: Op, o: Outcomes) {
    match op
    case NodeId(qrCode) => qrCode ==> o.qr.Ok?
    case Shutdown => true
    case Receive => o.destination.Ok? && o.transferError.None?
    case RingAdd => o.lines.Ok?
    case RingRemove => o.lines.Ok?
    case PeerRemove => o.lines.Ok?
    case RingNew => o.lines.Ok? && NoFailure(o.outputs)
    case RingList => o.lines.Ok? && NoFailure(o.outputs)
    case RingMembers => o.lines.Ok? && NoFailure(o.outputs)
    case PeerAdd => o.lines.Ok? && NoFailure(o.outputs)
    case PeerList => o.lines.Ok? && NoFailure(o.outputs)
    case _ => NoFailure(o.outputs)
  }

  lemma SaysDoneIffNoFailure(answer: seq<Event>, id: Uuid, lines: seq<string>, outputs: seq<Output>)
    requires Says(answer, id, lines, outputs)
    ensures answer != [] && (answer[|answer| - 1].kind.Done? <==> NoFailure(outputs))
  {
  }

  /** A client is told Done exactly when every call went well, and an error
      exactly otherwise. */
  lemma DoneIffNothingFailed(r: Request)
    ensures Answer(r) != []
    ensures Answer(r)[|Answer(r)| - 1].kind.Done? <==> NothingFailed(r.op, r.outcomes)
    ensures Answer(r)[|Answer(r)| - 1].kind.Error? <==> !NothingFailed(r.op, r.outcomes)
  {
    EveryHandlerIsWellFormed(r.id, r.op, r.outcomes);
    hide Says, Events, Handler;
    var o := r.outcomes;
    if r.op.NodeId? {
      NodeIdAnswer(r);
      if !r.op.qrCode || o.qr.Ok? {
        var lines := if r.op.qrCode then [o.peerId, ""] + o.qr.value else [o.peerId];
        SaysDoneIffNoFailure(Answer(r), r.id, lines, [Data(o.peerId)]);
      }
    } else if r.op.Shutdown? {
      ShutdownAnswer(r);
    } else if r.op.Receive? {
      ReceiveAnswer(r);
    } else if r.op.RingAdd? || r.op.RingRemove? || r.op.PeerRemove? {
      LinesOnlyAnswer(r);
      if o.lines.Ok? {
        SaysDoneIffNoFailure(Answer(r), r.id, o.lines.value, []);
      }
    } else if r.op.RingNew? || r.op.RingList? || r.op.RingMembers? || r.op.PeerAdd? || r.op.PeerList? {
      LinesThenRecordsAnswer(r);
      if o.lines.Ok? {
        SaysDoneIffNoFailure(Answer(r), r.id, o.lines.value, o.outputs);
      }
    } else {
      OutputsAnswer(r);
      SaysDoneIffNoFailure(Answer(r), r.id, [], o.outputs);
    }
  }
}
