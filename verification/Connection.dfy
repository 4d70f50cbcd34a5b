/** One client connection: the connection task, the dispatch task it spawns with
    the progress task of a transfer, the bounded channel between them, the
    socket and the client. Every step of every task is an action; the tasks
    interleave in any order. */
module Connection {
  import opened Common
  import opened Protocol

  const CHANNEL_CAPACITY := 32

  datatype Request = Request(id: Uuid, op: Op, outcomes: Outcomes)

  /** `Reading` waits for the request line and owns the node; `Serving` relays
      events from the channel; `Ended` has dropped the channel and the socket. */
  datatype ConnTask = Reading | Serving | Ended

  /** In `Transferring`, `left` is still to be reported by the download, then
      `over` is set; `pending` waits for the progress task, which has seen
      `cur` start. A finished task drops its parameters in reverse order of
      declaration: first the channel sender, then the node. */
  datatype Dispatch =
    | NotSpawned
    | Running(todo: seq<Instr>)
    | Transferring(
        left: seq<ProgressEvent>, pending: seq<ProgressEvent>, cur: Option<FileRef>,
        over: bool, error: Option<string>, todo: seq<Instr>)
    | Failing(message: string)
    | Returning
    | SenderDropped
    | Gone

  datatype Client = Waiting | Finished | Broken

  /** `log` is what the dispatch side has passed to `send` so far, whether or
      not the channel took it; `read` is how many events the client has read. */
  datatype Conn = Conn(
    task: ConnTask, request: Option<Request>, dispatch: Dispatch,
    queue: seq<Event>, wire: seq<Event>, log: seq<Event>, client: Client, read: nat)

  const ACCEPTED := Conn(Reading, None, NotSpawned, [], [], [], Waiting, 0)

  datatype Action =
    // connection task
    | ReadNothing | RefuseRequest(id: Uuid, message: string, written: bool) | ReadRequest(request: Request)
    | Relay | RelayFails | SeeChannelClosed | Abort
    // dispatch task
    | SendNext | FailNext | NotifyShutdown | StartTransfer | Report | EndTransfer | ResumeAfterTransfer
    | SendError | Return | DropSender | DropNode
    // progress task
    | ForwardNext
    // client; it may give up at any time, as on a line that it cannot read
    | ClientReads | ClientSeesClose | ClientGivesUp

  predicate SenderAlive(d: Dispatch) {
    !d.NotSpawned? && !d.SenderDropped? && !d.Gone?
  }

  /** A send goes through when the channel has room, and returns at once when
      the receiver is gone. */
  predicate CanSend(c: Conn) {
    c.task.Ended? || |c.queue| < CHANNEL_CAPACITY
  }

  function Sent(c: Conn, kind: EventKind): Conn
    requires c.request.Some?
  {
    var e := Event(c.request.value.id, kind);
    c.(log := c.log + [e], queue := if c.task.Ended? then c.queue else c.queue + [e])
  }

  function End(c: Conn): Conn {
    c.(task := Ended, queue := [])
  }

  predicate Enabled(c: Conn, a: Action) {
    match a
    case ReadNothing => c.task.Reading?
    case RefuseRequest(_, _, _) => c.task.Reading?
    case ReadRequest(_) => c.task.Reading?
    case Relay => c.task.Serving? && c.queue != []
    case RelayFails => c.task.Serving? && c.queue != []
    case SeeChannelClosed => c.task.Serving? && c.queue == [] && !SenderAlive(c.dispatch)
    case Abort => !c.task.Ended?
    case SendNext => c.dispatch.Running? && c.dispatch.todo != [] && c.dispatch.todo[0].Emit? && c.request.Some? && CanSend(c)
    case FailNext => c.dispatch.Running? && c.dispatch.todo != [] && c.dispatch.todo[0].Fail?
    case NotifyShutdown => c.dispatch.Running? && c.dispatch.todo != [] && c.dispatch.todo[0].Notify?
    case StartTransfer => c.dispatch.Running? && c.dispatch.todo != [] && c.dispatch.todo[0].Download?
    case Report => c.dispatch.Transferring? && c.dispatch.left != []
    case EndTransfer => c.dispatch.Transferring? && c.dispatch.left == [] && !c.dispatch.over
    case ForwardNext => c.dispatch.Transferring? && c.dispatch.pending != [] && c.request.Some?
      && (c.dispatch.pending[0].FileStart? || CanSend(c))
    case ResumeAfterTransfer => c.dispatch.Transferring? && c.dispatch.over && c.dispatch.pending == []
    case SendError => c.dispatch.Failing? && c.request.Some? && CanSend(c)
    case Return => c.dispatch.Running? && c.dispatch.todo == []
    case DropSender => c.dispatch.Returning?
    case DropNode => c.dispatch.SenderDropped?
    case ClientReads => c.client.Waiting? && c.read < |c.wire|
    case ClientSeesClose => c.client.Waiting? && c.task.Ended? && c.read == |c.wire|
    case ClientGivesUp => c.client.Waiting?
  }

  function Next(c: Conn, a: Action): Conn
    requires Enabled(c, a)
  {
    match a
    case ReadNothing => End(c)
    case RefuseRequest(id, m, written) =>
      var reply := if written then [Event(id, Error(m))] else [];
      End(c).(wire := reply, log := reply)
    case ReadRequest(r) => c.(task := Serving, request := Some(r), dispatch := Running(Handler(r.op, r.outcomes)))
    case Relay => c.(queue := c.queue[1..], wire := c.wire + [c.queue[0]])
    case RelayFails => End(c)
    case SeeChannelClosed => End(c)
    case Abort => End(c)
    case SendNext => Sent(c, c.dispatch.todo[0].kind).(dispatch := Running(c.dispatch.todo[1..]))
    case FailNext => c.(dispatch := Failing(c.dispatch.todo[0].message))
    case NotifyShutdown => c.(dispatch := Running(c.dispatch.todo[1..]))
    case StartTransfer =>
      c.(dispatch := Transferring(
        c.dispatch.todo[0].events, [], None, false, c.dispatch.todo[0].error, c.dispatch.todo[1..]))
    case Report =>
      c.(dispatch := c.dispatch.(left := c.dispatch.left[1..], pending := c.dispatch.pending + [c.dispatch.left[0]]))
    case EndTransfer => c.(dispatch := c.dispatch.(over := true))
    case ForwardNext =>
      var rest := c.dispatch.(pending := c.dispatch.pending[1..]);
      (match c.dispatch.pending[0]
      case FileStart(i, n, name) => c.(dispatch := rest.(cur := Some(FileRef(i, n, name))))
      case BytesReceived(done, total) => Sent(c, ProgressKind(c.dispatch.cur, done, total)).(dispatch := rest))
    case ResumeAfterTransfer =>
      c.(dispatch := if c.dispatch.error.Some? then Failing(c.dispatch.error.value) else Running(c.dispatch.todo))
    case SendError => Sent(c, Error(c.dispatch.message)).(dispatch := Returning)
    case Return => c.(dispatch := Returning)
    case DropSender => c.(dispatch := SenderDropped)
    case DropNode => c.(dispatch := Gone)
    case ClientReads => c.(read := c.read + 1, client := if IsTerminal(c.wire[c.read]) then Finished else Waiting)
    case ClientSeesClose => c.(client := Broken)
    case ClientGivesUp => c.(client := Broken)
  }

  // What a dispatch task has still to send

  function AfterTransfer(id: Uuid, error: Option<string>, todo: seq<Instr>): seq<Event> {
    if error.Some? then [Event(id, Error(error.value))] else Events(id, todo)
  }

  function Rest(id: Uuid, d: Dispatch): seq<Event> {
    match d
    case Running(todo) => Events(id, todo)
    case Transferring(left, pending, cur, _, error, todo) =>
      Forward(id, cur, pending + left) + AfterTransfer(id, error, todo)
    case Failing(m) => [Event(id, Error(m))]
    case _ => []
  }

  /** The whole answer to a request, as its handler sends it run alone. */
  function Answer(r: Request): seq<Event> {
    Events(r.id, Handler(r.op, r.outcomes))
  }

  // The invariant of a connection

  /** What was sent and what is still to be sent is the whole answer. */
  ghost predicate AnswerInv(c: Conn) {
    match c.request
    case Some(r) => !c.dispatch.NotSpawned? && c.log + Rest(r.id, c.dispatch) == Answer(r)
    case None =>
      && c.dispatch.NotSpawned? && |c.log| <= 1
      && (c.log != [] ==> c.log[0].kind.Error? && c.task.Ended?)
  }

  /** The channel is FIFO and loses nothing while the connection is served. */
  ghost predicate ChannelInv(c: Conn) {
    && |c.queue| <= CHANNEL_CAPACITY
    && (c.task.Reading? <==> c.request.None? && !c.task.Ended?)
    && (c.task.Reading? ==> c.log == [])
    && (!c.task.Ended? ==> c.wire + c.queue == c.log)
    && (c.task.Ended? ==> c.queue == [] && c.wire <= c.log)
    && (c.task.Ended? && c.request.None? ==> c.wire == c.log)
  }

  /** The client stops at the first terminal event it reads. */
  ghost predicate ClientInv(c: Conn) {
    && c.read <= |c.wire|
    && (forall i :: 0 <= i < c.read - 1 ==> !IsTerminal(c.wire[i]))
    && (c.client.Finished? ==> c.read > 0 && IsTerminal(c.wire[c.read - 1]))
    && (c.read > 0 && IsTerminal(c.wire[c.read - 1]) ==> c.client.Finished?)
  }

  /** The progress task is drained before the transfer's outcome is sent. */
  ghost predicate TransferInv(c: Conn) {
    c.dispatch.Transferring? && c.dispatch.over ==> c.dispatch.left == []
  }

  ghost predicate Inv(c: Conn) {
    AnswerInv(c) && ChannelInv(c) && ClientInv(c) && TransferInv(c)
  }

  lemma AcceptedInv()
    ensures Inv(ACCEPTED)
  {
  }

  lemma SendKeepsAnswer(c: Conn, kind: EventKind, rest: seq<Event>)
    requires c.request.Some?
    ensures Sent(c, kind).log + rest == c.log + ([Event(c.request.value.id, kind)] + rest)
  {
  }

  predicate IsTransferAction(a: Action) {
    a.StartTransfer? || a.Report? || a.ForwardNext? || a.EndTransfer? || a.ResumeAfterTransfer?
  }

  /** No step changes what log and rest add up to. */
  lemma StepKeepsAnswer(c: Conn, a: Action)
    requires AnswerInv(c) && ChannelInv(c) && TransferInv(c) && Enabled(c, a)
    ensures AnswerInv(Next(c, a)) && TransferInv(Next(c, a))
  {
    if IsTransferAction(a) {
      TransferKeepsAnswer(c, a);
    } else {
      hide Handler, Forward;
      match a
      case ReadRequest(r) => assert [] + Answer(r) == Answer(r);
      case SendNext =>
        hide Events;
        SendKeepsAnswer(c, c.dispatch.todo[0].kind, Events(c.request.value.id, c.dispatch.todo[1..]));
        EmitFirst(c.request.value.id, c.dispatch.todo);
      case SendError => SendKeepsAnswer(c, Error(c.dispatch.message), []);
      case _ =>
    }
  }

  lemma EmitFirst(id: Uuid, todo: seq<Instr>)
    requires todo != [] && todo[0].Emit?
    ensures Events(id, todo) == [Event(id, todo[0].kind)] + Events(id, todo[1..])
  {
  }

  lemma TransferKeepsAnswer(c: Conn, a: Action)
    requires AnswerInv(c) && TransferInv(c) && Enabled(c, a) && IsTransferAction(a)
    ensures AnswerInv(Next(c, a)) && TransferInv(Next(c, a))
  {
    hide Handler;
    match a
    case StartTransfer =>
      var ps := c.dispatch.todo[0].events;
      assert [] + ps == ps;
    case Report =>
      var d := c.dispatch;
      assert d.pending + [d.left[0]] + d.left[1..] == d.pending + d.left;
    case EndTransfer =>
    case ForwardNext => ForwardKeepsAnswer(c);
    case ResumeAfterTransfer =>
      assert c.dispatch.pending + c.dispatch.left == [];
      var after := AfterTransfer(c.request.value.id, c.dispatch.error, c.dispatch.todo);
      assert [] + after == after;
  }

  lemma ForwardKeepsAnswer(c: Conn)
    requires AnswerInv(c) && TransferInv(c) && Enabled(c, ForwardNext)
    ensures AnswerInv(Next(c, ForwardNext)) && TransferInv(Next(c, ForwardNext))
  {
    hide Handler, Events;
    var d, id := c.dispatch, c.request.value.id;
    assert (d.pending + d.left)[1..] == d.pending[1..] + d.left;
    var after := AfterTransfer(id, d.error, d.todo);
    match d.pending[0]
    case FileStart(_, _, _) =>
    case BytesReceived(done, total) =>
      var e := Event(id, ProgressKind(d.cur, done, total));
      var forwarded := Forward(id, d.cur, d.pending[1..] + d.left);
      assert [e] + forwarded + after == [e] + (forwarded + after);
      SendKeepsAnswer(c, e.kind, forwarded + after);
  }

  /** Steps of the dispatch task that do not send. */
  predicate IsQuiet(a: Action) {
    || a.FailNext? || a.NotifyShutdown? || a.StartTransfer? || a.Report? || a.EndTransfer?
    || a.ResumeAfterTransfer? || a.Return? || a.DropSender? || a.DropNode?
  }

  predicate IsSend(a: Action) {
    a.SendNext? || a.SendError? || a.ForwardNext?
  }

  lemma QuietStepsChangeDispatchOnly(c: Conn, a: Action)
    requires Enabled(c, a) && IsQuiet(a)
    ensures Next(c, a) == c.(dispatch := Next(c, a).dispatch)
    ensures c.dispatch.NotSpawned? <==> Next(c, a).dispatch.NotSpawned?
  {
    hide Handler, Events, Forward;
  }

  lemma SendsKeepChannel(c: Conn, a: Action)
    requires ChannelInv(c) && Enabled(c, a) && IsSend(a)
    ensures ChannelInv(Next(c, a))
  {
    hide Handler, Events, Forward;
    match a
    case SendNext => SentKeepsChannel(c, c.dispatch.todo[0].kind);
    case SendError => SentKeepsChannel(c, Error(c.dispatch.message));
    case ForwardNext =>
      if c.dispatch.pending[0].BytesReceived? {
        SentKeepsChannel(c, ProgressKind(c.dispatch.cur, c.dispatch.pending[0].done, c.dispatch.pending[0].total));
      }
  }

  lemma StepKeepsChannel(c: Conn, a: Action)
    requires AnswerInv(c) && ChannelInv(c) && Enabled(c, a)
    ensures ChannelInv(Next(c, a))
  {
    hide Handler, Events, Forward, AnswerInv;
    if IsQuiet(a) {
      hide Enabled, Next;
      QuietStepsChangeDispatchOnly(c, a);
    } else if IsSend(a) {
      SendsKeepChannel(c, a);
    } else if a.Relay? {
      assert c.wire + [c.queue[0]] + c.queue[1..] == c.wire + c.queue;
    }
  }

  lemma SentKeepsChannel(c: Conn, kind: EventKind)
    requires ChannelInv(c) && c.request.Some? && CanSend(c)
    ensures ChannelInv(Sent(c, kind))
  {
    var e := Event(c.request.value.id, kind);
    assert c.wire + (c.queue + [e]) == c.wire + c.queue + [e];
  }

  predicate IsClientAction(a: Action) {
    a.ClientReads? || a.ClientSeesClose? || a.ClientGivesUp?
  }

  /** The socket only ever gains events at its end. */
  lemma WireGrows(c: Conn, a: Action)
    requires ChannelInv(c) && Enabled(c, a)
    ensures c.wire <= Next(c, a).wire
    ensures !IsClientAction(a) ==> Next(c, a).read == c.read && Next(c, a).client == c.client
    ensures IsClientAction(a) ==> Next(c, a).wire == c.wire
  {
    hide Handler, Events, Forward;
    if IsQuiet(a) {
      hide Enabled, Next;
      QuietStepsChangeDispatchOnly(c, a);
    }
  }

  lemma StepKeepsClient(c: Conn, a: Action)
    requires ChannelInv(c) && ClientInv(c) && Enabled(c, a)
    ensures ClientInv(Next(c, a))
  {
    WireGrows(c, a);
    if !IsClientAction(a) {
      hide Next, Enabled, ChannelInv;
      var wire' := Next(c, a).wire;
      assert forall i :: 0 <= i < |c.wire| ==> wire'[i] == c.wire[i];
    }
  }

  lemma StepKeepsInv(c: Conn, a: Action)
    requires Inv(c) && Enabled(c, a)
    ensures Inv(Next(c, a))
  {
    hide Next, Enabled, AnswerInv, ChannelInv, ClientInv, TransferInv;
    StepKeepsAnswer(c, a);
    StepKeepsChannel(c, a);
    StepKeepsClient(c, a);
  }

  // What the client reads

  function ReadSoFar(c: Conn): seq<Event>
    requires c.read <= |c.wire|
  {
    c.wire[..c.read]
  }

  /** At any moment the client has read a prefix of the whole answer, in order;
      it has finished exactly when it has read all of it. */
  lemma ClientReadsPrefixOfAnswer(c: Conn)
    requires Inv(c) && c.request.Some?
    ensures ReadSoFar(c) <= Answer(c.request.value)
    ensures c.client.Finished? <==> ReadSoFar(c) == Answer(c.request.value)
    ensures WellFormedStream(Answer(c.request.value), c.request.value.id)
  {
    var r := c.request.value;
    EveryHandlerIsWellFormed(r.id, r.op, r.outcomes);
    hide Events, Handler, Forward;
    var answer := Answer(r);
    assert c.wire <= c.log && c.log <= c.log + Rest(r.id, c.dispatch);
    assert c.wire <= answer;
    if c.client.Finished? {
      assert IsTerminal(answer[c.read - 1]);
    }
  }

  /** A request that cannot be parsed is answered with one error at most. */
  lemma RefusedClientReadsOneError(c: Conn)
    requires Inv(c) && c.request.None?
    ensures |ReadSoFar(c)| <= 1
    ensures forall e :: e in ReadSoFar(c) ==> e.kind.Error?
    ensures c.client.Finished? <==> |ReadSoFar(c)| == 1
  {
  }

  // Progress

  function InstrWork(x: Instr): nat {
    match x
    case Emit(_) => 2
    case Fail(_) => 1
    case Notify => 1
    case Download(ps, _) => 4 * |ps| + 4
  }

  function ScriptWork(todo: seq<Instr>): nat {
    if todo == [] then 6 else InstrWork(todo[0]) + ScriptWork(todo[1..])
  }

  function DispatchWork(d: Dispatch): nat {
    match d
    case NotSpawned => 0
    case Running(todo) => ScriptWork(todo)
    case Transferring(left, pending, _, over, _, todo) =>
      4 * |left| + 2 * |pending| + (if over then 0 else 1) + 2 + ScriptWork(todo)
    case Failing(_) => 5
    case Returning => 2
    case SenderDropped => 1
    case Gone => 0
  }

  /** Steps the server can still take for this connection, at most. */
  function Work(c: Conn): nat {
    DispatchWork(c.dispatch) + |c.queue| + (if c.task.Ended? then 0 else 1)
  }

  lemma {:induction false} ScriptWorkAtLeast(todo: seq<Instr>)
    ensures ScriptWork(todo) >= 6
  {
    if todo != [] {
      ScriptWorkAtLeast(todo[1..]);
    }
  }

  lemma QuietStepsUseUpWork(c: Conn, a: Action)
    requires TransferInv(c) && Enabled(c, a) && IsQuiet(a)
    ensures DispatchWork(Next(c, a).dispatch) < DispatchWork(c.dispatch)
  {
    hide Events, Handler, Forward, Sent;
    if c.dispatch.Running? || c.dispatch.Transferring? {
      ScriptWorkAtLeast(c.dispatch.todo);
    }
  }

  lemma SendsUseUpWork(c: Conn, a: Action)
    requires Enabled(c, a) && IsSend(a)
    ensures Work(Next(c, a)) < Work(c)
  {
    hide Events, Handler, Forward;
  }

  /** After the request is read, every step of the server's tasks uses up work:
      no connection keeps them busy for ever. */
  lemma ServerStepsUseUpWork(c: Conn, a: Action)
    requires Inv(c) && Enabled(c, a) && !IsClientAction(a) && !a.ReadRequest?
    ensures Work(Next(c, a)) < Work(c)
  {
    hide Events, Handler, Forward, AnswerInv, ClientInv, DispatchWork;
    if IsQuiet(a) {
      hide Enabled, Next;
      QuietStepsUseUpWork(c, a);
      QuietStepsChangeDispatchOnly(c, a);
    } else if IsSend(a) {
      SendsUseUpWork(c, a);
    }
  }

  predicate IsSettled(c: Conn) {
    c.task.Ended? && c.dispatch.Gone?
  }

  /** A step that is always possible without a failure or an abort. */
  function Move(c: Conn): Action {
    if c.task.Serving? && c.queue != [] then Relay
    else
      match c.dispatch
      case Running(todo) =>
        if todo == [] then Return
        else (match todo[0]
          case Emit(_) => SendNext
          case Fail(_) => FailNext
          case Notify => NotifyShutdown
          case Download(_, _) => StartTransfer)
      case Transferring(left, pending, _, over, _, _) =>
        if left != [] then Report else if !over then EndTransfer else if pending != [] then ForwardNext else ResumeAfterTransfer
      case Failing(_) => SendError
      case Returning => DropSender
      case SenderDropped => if c.task.Serving? then SeeChannelClosed else DropNode
      case _ => SeeChannelClosed
  }

  /** Back-pressure never deadlocks: until both tasks are done, one of them can
      move, full channel or not. */
  lemma NeverStuck(c: Conn)
    requires Inv(c) && c.request.Some? && !IsSettled(c)
    ensures Enabled(c, Move(c)) && !IsClientAction(Move(c)) && !Move(c).ReadRequest?
    ensures !Move(c).Abort? && !Move(c).RelayFails?
  {
    hide Events, Handler, Forward, ClientInv;
  }

  // Served in full, in every schedule

  /** Neither an abort nor a failed write. */
  predicate IsFaultless(a: Action) {
    !a.Abort? && !a.RelayFails?
  }

  predicate IsServerStep(a: Action) {
    !IsClientAction(a)
  }

  /** The actions can be taken one after the other. */
  predicate CanRun(c: Conn, actions: seq<Action>)
    decreases |actions|
  {
    actions == [] || (Enabled(c, actions[0]) && CanRun(Next(c, actions[0]), actions[1..]))
  }

  function AfterRun(c: Conn, actions: seq<Action>): Conn
    requires CanRun(c, actions)
    decreases |actions|
  {
    if actions == [] then c else AfterRun(Next(c, actions[0]), actions[1..])
  }

  function ServerSteps(actions: seq<Action>): nat {
    if actions == [] then 0 else (if IsServerStep(actions[0]) then 1 else 0) + ServerSteps(actions[1..])
  }

  /** The request was read, and the connection is served or was served whole. */
  ghost predicate Undisturbed(c: Conn) {
    c.request.Some? && (c.task.Serving? || c.wire == Answer(c.request.value))
  }

  lemma FaultlessStepKeepsUndisturbed(c: Conn, a: Action)
    requires Inv(c) && Undisturbed(c) && Enabled(c, a) && IsFaultless(a)
    ensures Next(c, a).request == c.request && Undisturbed(Next(c, a)) && !a.ReadRequest?
  {
    hide Events, Handler, Forward, ClientInv;
    if a.SeeChannelClosed? {
      assert c.wire + [] == c.wire && c.log + [] == c.log;
    } else if IsQuiet(a) {
      hide Enabled, Next;
      QuietStepsChangeDispatchOnly(c, a);
    }
  }

  lemma ClientStepsLeaveWork(c: Conn, a: Action)
    requires Enabled(c, a) && IsClientAction(a)
    ensures Work(Next(c, a)) == Work(c)
  {
  }

  /** In every schedule without an abort or a failed write: the server's tasks
      take a bounded number of steps, as long as they are not both over one of
      them can take another, and once the connection task is over the whole
      answer is on the socket. */
  lemma {:induction false} ServedInFull(c: Conn, actions: seq<Action>)
    requires Inv(c) && Undisturbed(c)
    requires CanRun(c, actions) && forall a :: a in actions ==> IsFaultless(a)
    ensures var c' := AfterRun(c, actions);
      && Inv(c') && c'.request == c.request && Undisturbed(c')
      && ServerSteps(actions) + Work(c') <= Work(c)
      && (!IsSettled(c') ==> exists a :: IsServerStep(a) && IsFaultless(a) && Enabled(c', a))
      && (c'.task.Ended? ==> c'.wire == Answer(c.request.value))
    decreases |actions|
  {
    hide Enabled, Next, Inv, Answer, Work, Move;
    if actions == [] {
      if !IsSettled(c) {
        NeverStuck(c);
        assert IsServerStep(Move(c)) && IsFaultless(Move(c)) && Enabled(c, Move(c));
      }
    } else {
      var a := actions[0];
      StepKeepsInv(c, a);
      FaultlessStepKeepsUndisturbed(c, a);
      if IsServerStep(a) {
        ServerStepsUseUpWork(c, a);
      } else {
        ClientStepsLeaveWork(c, a);
      }
      ServedInFull(Next(c, a), actions[1..]);
    }
  }
}
