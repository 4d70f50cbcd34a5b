/** The client's read loop. */
module Client {
  import opened Common
  import opened Protocol
  import opened Connection
  import opened Server

  /** A line from the socket: an event, or something that is not one (too long,
      not UTF-8, not JSON). */
  datatype Frame = Parsed(event: Event) | Garbage

  datatype SendError = ClosedEarly | BadFrame

  /** The events up to and including the first terminal one, or why there is
      none. */
  ghost predicate IsAnswered(frames: seq<Frame>, seen: seq<Event>, r: Result<(), SendError>) {
    && |seen| <= |frames|
    && (forall i :: 0 <= i < |seen| ==> frames[i] == Parsed(seen[i]))
    && match r
      case Ok(_) => |seen| > 0 && forall i :: 0 <= i < |seen| ==> (IsTerminal(seen[i]) <==> i == |seen| - 1)
      case Err(ClosedEarly) => |seen| == |frames| && forall i :: 0 <= i < |seen| ==> !IsTerminal(seen[i])
      case Err(BadFrame) =>
        |seen| < |frames| && frames[|seen|].Garbage? && forall i :: 0 <= i < |seen| ==> !IsTerminal(seen[i])
  }

  /** `frames` are the lines that arrive before the connection is closed;
      `seen` is what the callback is given. */
  method Send(frames: seq<Frame>) returns (r: Result<(), SendError>, seen: seq<Event>)
    ensures IsAnswered(frames, seen, r)
  {
    seen := [];
    var i := 0;
    while true
      invariant i == |seen| <= |frames|
      invariant forall k :: 0 <= k < i ==> frames[k] == Parsed(seen[k]) && !IsTerminal(seen[k])
      decreases |frames| - i
    {
      if i == |frames| {
        return Err(ClosedEarly), seen;
      }
      if frames[i].Garbage? {
        return Err(BadFrame), seen;
      }
      var event := frames[i].event;
      seen := seen + [event];
      if IsTerminal(event) {
        break;
      }
      i := i + 1;
    }
    return Ok(()), seen;
  }

  // Lines that the reader refuses

  /** Longer lines are an error of the reader, on either side. */
  const MAX_LINE_BYTES := 512 * 1024

  /** `length` is how long an event is as a line of JSON. */
  predicate Fits(length: Event -> nat, e: Event) {
    length(e) <= MAX_LINE_BYTES
  }

  predicate AllFit(length: Event -> nat, events: seq<Event>) {
    forall i :: 0 <= i < |events| ==> Fits(length, events[i])
  }

  /** What the reader makes of the events on the socket, and of a line that an
      abort in the middle of a write cut short. */
  function Frames(length: Event -> nat, events: seq<Event>, cut: bool): seq<Frame> {
    seq(|events|, i requires 0 <= i < |events| => if Fits(length, events[i]) then Parsed(events[i]) else Garbage)
    + (if cut then [Garbage] else [])
  }

  /** Reading the first events of a well-formed answer. */
  lemma ReadsUpToMisfit(
    id: Uuid, answer: seq<Event>, wire: seq<Event>, length: Event -> nat, cut: bool,
    r: Result<(), SendError>, seen: seq<Event>)
    requires WellFormedStream(answer, id) && wire <= answer
    requires IsAnswered(Frames(length, wire, cut), seen, r)
    ensures seen <= wire
    ensures AllFit(length, seen) && (|seen| < |wire| ==> !Fits(length, wire[|seen|]))
    ensures r.Ok? <==> wire == answer && AllFit(length, answer)
  {
    hide Fits, WellFormedStream, Frames;
    var frames := Frames(length, wire, cut);
    FramesAt(length, wire, cut);
    SeenIsPrefix(length, wire, frames, r, seen);
    if r.Ok? {
      EndIsAll(id, answer, seen);
    } else {
      NoEndIsNotAll(id, answer, seen);
      if |seen| < |wire| {
        assert frames[|seen|].Garbage? && wire[|seen|] == answer[|seen|];
      }
    }
  }

  lemma FramesAt(length: Event -> nat, wire: seq<Event>, cut: bool)
    ensures var frames := Frames(length, wire, cut);
      && |wire| <= |frames| <= |wire| + 1
      && (forall k :: 0 <= k < |wire| ==> frames[k] == if Fits(length, wire[k]) then Parsed(wire[k]) else Garbage)
      && (|frames| > |wire| ==> frames[|wire|].Garbage?)
  {
  }

  lemma SeenIsPrefix(
    length: Event -> nat, wire: seq<Event>, frames: seq<Frame>, r: Result<(), SendError>, seen: seq<Event>)
    requires IsAnswered(frames, seen, r)
    requires |wire| <= |frames| <= |wire| + 1
    requires forall k :: 0 <= k < |wire| ==> frames[k] == if Fits(length, wire[k]) then Parsed(wire[k]) else Garbage
    requires |frames| > |wire| ==> frames[|wire|].Garbage?
    ensures seen <= wire && AllFit(length, seen)
  {
    hide Fits;
    assert forall i :: 0 <= i < |seen| ==> frames[i].Parsed? && frames[i] == Parsed(seen[i]);
    assert |seen| <= |wire|;
    forall k | 0 <= k < |seen| ensures seen[k] == wire[k] && Fits(length, seen[k]) {
      assert frames[k] == Parsed(seen[k]);
    }
  }

  lemma EndIsAll(id: Uuid, answer: seq<Event>, seen: seq<Event>)
    requires WellFormedStream(answer, id) && seen <= answer && seen != [] && IsTerminal(seen[|seen| - 1])
    ensures seen == answer
  {
    assert answer[|seen| - 1] == seen[|seen| - 1];
  }

  lemma NoEndIsNotAll(id: Uuid, answer: seq<Event>, seen: seq<Event>)
    requires WellFormedStream(answer, id) && seen <= answer
    requires forall i :: 0 <= i < |seen| ==> !IsTerminal(seen[i])
    ensures |seen| < |answer|
  {
    assert forall i :: 0 <= i < |seen| ==> answer[i] == seen[i];
    assert IsTerminal(answer[|answer| - 1]);
  }

  /** Reading a connection to its end, `send` returns Ok exactly when the whole
      answer was written to the socket and every event of it fits in a line. The
      callback has seen everything up to the end or to the first event that does
      not fit. */
  lemma SendIsOkIffAnswerArrivedAndFits(
    s: State, i: nat, length: Event -> nat, cut: bool, r: Result<(), SendError>, seen: seq<Event>)
    requires Reachable(s) && i < |s.conns| && s.conns[i].request.Some?
    requires IsAnswered(Frames(length, s.conns[i].wire, cut), seen, r)
    ensures var answer, wire := Answer(s.conns[i].request.value), s.conns[i].wire;
      && seen <= wire <= answer
      && AllFit(length, seen) && (|seen| < |wire| ==> !Fits(length, wire[|seen|]))
      && (r.Ok? <==> wire == answer && AllFit(length, answer))
  {
    hide IsAnswered, Frames, AllFit, Fits, Events, Handler, Forward, Reachable;
    var c := s.conns[i];
    ReachableInv(s);
    ClientReadsPrefixOfAnswer(c);
    var answer, id := Answer(c.request.value), c.request.value.id;
    assert c.wire <= c.log && c.log <= c.log + Rest(id, c.dispatch);
    assert c.wire <= answer;
    ReadsUpToMisfit(id, answer, c.wire, length, cut, r, seen);
  }

  // An answer that arrives and is not read

  /** Each backslash and quote takes two characters, in a JSON string and in the
      quoted text of an error message alike. */
  function Escaped(s: string): (t: string)
    ensures |t| >= |s|
  {
    if s == [] then []
    else (if s[0] == '\\' || s[0] == '"' then ['\\', s[0]] else [s[0]]) + Escaped(s[1..])
  }

  function UnknownPrivilege(privilege: string): string {
    "unknown privilege: " + "\"" + Escaped(privilege) + "\""
  }

  function Backslashes(n: nat): string {
    seq(n, _ => '\\')
  }

  lemma {:induction false} EscapedConcat(a: string, b: string)
    ensures Escaped(a + b) == Escaped(a) + Escaped(b)
  {
    if a == [] {
      assert a + b == b;
    } else {
      assert (a + b)[0] == a[0] && (a + b)[1..] == a[1..] + b;
      EscapedConcat(a[1..], b);
    }
  }

  lemma {:induction false} EscapedBackslashes(n: nat)
    ensures Escaped(Backslashes(n)) == Backslashes(2 * n)
  {
    if n > 0 {
      assert Backslashes(n)[1..] == Backslashes(n - 1);
      EscapedBackslashes(n - 1);
    }
  }

  /** The message doubles the backslashes of the request, and JSON doubles them
      again. */
  lemma MessageIsFourTimesAsLong(n: nat)
    ensures |Escaped(Backslashes(n))| == 2 * n
    ensures |Escaped(UnknownPrivilege(Backslashes(n)))| >= 4 * n
  {
    EscapedBackslashes(n);
    EscapedBackslashes(2 * n);
    var before := "unknown privilege: " + "\"";
    EscapedConcat(before + Backslashes(2 * n), "\"");
    EscapedConcat(before, Backslashes(2 * n));
  }

  /** The only connection of a server: a grant whose one answer is an error,
      written to the socket. */
  lemma ErrorIsWritten(r: Request, message: string) returns (s: State)
    requires r.op.GrantOp? && r.outcomes.outputs == [Failure(message)]
    ensures Reachable(s) && |s.conns| == 1 && s.conns[0].request == Some(r)
    ensures s.conns[0].wire == Answer(r) == [Event(r.id, Error(message))]
  {
    hide Reachable;
    var e := Event(r.id, Error(message));
    var script := Handler(r.op, r.outcomes);
    assert script == [Fail(message), Emit(Done)];
    StartIsReachable();
    ReachableStep(BOUND, Accept);
    assert [] + [ACCEPTED] == [ACCEPTED];
    AdvanceOnly(ACCEPTED, false, 2, ReadRequest(r));
    var c := Conn(Serving, Some(r), Running(script), [], [], [], Waiting, 0);
    AdvanceOnly(c, false, 2, FailNext);
    c := c.(dispatch := Failing(message));
    AdvanceOnly(c, false, 2, SendError);
    assert [] + [e] == [e] && [e][1..] == [];
    c := c.(dispatch := Returning, queue := [e], log := [e]);
    AdvanceOnly(c, false, 2, Relay);
    c := c.(queue := [], wire := [e]);
    s := State(Accepting, false, 2, [c]);
  }

  /** A grant of a privilege of `n` backslashes, for any `n` of this range, 150000
      among them: the request has room in its line, the one event that answers it
      has not. It arrives, `send` fails and the callback sees nothing. */
  lemma AnswerArrivesUnread(n: nat, r: Request, length: Event -> nat) returns (s: State)
    requires MAX_LINE_BYTES < 4 * n && 2 * n + 2000 <= MAX_LINE_BYTES
    requires r.op.GrantOp? && r.outcomes.outputs == [Failure(UnknownPrivilege(Backslashes(n)))]
    requires forall e: Event :: e.kind.Error? ==> length(e) >= |Escaped(e.kind.message)|
    ensures |Escaped(Backslashes(n))| + 2000 <= MAX_LINE_BYTES
    ensures Reachable(s) && |s.conns| == 1 && s.conns[0].request == Some(r) && s.conns[0].wire == Answer(r)
    ensures forall seen, result :: IsAnswered(Frames(length, s.conns[0].wire, false), seen, result) ==>
      result == Err(BadFrame) && seen == []
  {
    hide Reachable, Escaped, Backslashes;
    MessageIsFourTimesAsLong(n);
    s := ErrorIsWritten(r, UnknownPrivilege(Backslashes(n)));
    hide Answer, UnknownPrivilege;
    var e := s.conns[0].wire[0];
    assert !Fits(length, e);
    assert Frames(length, [e], false) == [Garbage];
    assert s.conns[0].wire == [e];
    forall seen, result | IsAnswered(Frames(length, s.conns[0].wire, false), seen, result)
      ensures result == Err(BadFrame) && seen == []
    {
      GarbageIsNoEvent(seen, result);
    }
  }

  lemma GarbageIsNoEvent(seen: seq<Event>, r: Result<(), SendError>)
    requires IsAnswered([Garbage], seen, r)
    ensures r == Err(BadFrame) && seen == []
  {
    assert [Garbage][0].Garbage?;
  }
}
