/** The daemon server: the accept loop, shutdown, drain, abort and the final
    unwrap of the shared node, over any number of connections. */
module Server {
  import opened Common
  import opened Protocol
  import opened Connection

  /** `Closed` is the node shut down by its only owner; `Panicked` is the unwrap
      finding other owners; `AcceptFailed` is `run` returning an error. */
  datatype Phase = Accepting | Draining | Aborting | Closed | Panicked | AcceptFailed

  /** `permit` is a stored shutdown notification; `owners` is the reference
      count of the node, moved by one at every clone and drop. */
  datatype State = State(phase: Phase, permit: bool, owners: int, conns: seq<Conn>)

  const BOUND := State(Accepting, false, 1, [])

  datatype ServerAction =
    | Accept
    | AcceptFails
    | TakeShutdown
    | DrainTimesOut
    | Unwrap
    | Act(i: nat, action: Action)

  predicate ServerHolds(phase: Phase) {
    phase.Accepting? || phase.Draining? || phase.Aborting?
  }

  predicate AllTasksEnded(conns: seq<Conn>) {
    forall i :: 0 <= i < |conns| ==> conns[i].task.Ended?
  }

  predicate CanAct(s: State, a: ServerAction) {
    match a
    case Accept => s.phase.Accepting?
    case AcceptFails => s.phase.Accepting?
    case TakeShutdown => s.phase.Accepting? && s.permit
    case DrainTimesOut => s.phase.Draining?
    case Unwrap => (s.phase.Draining? || s.phase.Aborting?) && AllTasksEnded(s.conns)
    case Act(i, action) =>
      && i < |s.conns| && Enabled(s.conns[i], action)
      && (action.Abort? ==> s.phase.Aborting? || s.phase.AcceptFailed?)
  }

  /** References to the node that an action gives up. A connection task gives
      its own to the dispatch task it spawns; a request that is not dispatched
      leaves it with the connection task, which drops it at its end. */
  function Drops(c: Conn, a: Action): int {
    match a
    case ReadNothing => 1
    case RefuseRequest(_, _, _) => 1
    case Abort => if c.task.Reading? then 1 else 0
    case DropNode => 1
    case _ => 0
  }

  function Step(s: State, a: ServerAction): State
    requires CanAct(s, a)
  {
    match a
    case Accept => s.(owners := s.owners + 1, conns := s.conns + [ACCEPTED])
    case AcceptFails => s.(phase := AcceptFailed, owners := s.owners - 1)
    case TakeShutdown => s.(phase := Draining, permit := false)
    case DrainTimesOut => s.(phase := Aborting)
    case Unwrap => s.(phase := if s.owners == 1 then Closed else Panicked, owners := s.owners - 1)
    case Act(i, action) =>
      s.(conns := s.conns[i := Next(s.conns[i], action)],
         owners := s.owners - Drops(s.conns[i], action),
         permit := s.permit || action.NotifyShutdown?)
  }

  ghost predicate IsRun(actions: seq<ServerAction>, s: State)
    decreases |actions|
  {
    if actions == [] then s == BOUND
    else
      var n := |actions| - 1;
      exists before :: IsRun(actions[..n], before) && CanAct(before, actions[n]) && s == Step(before, actions[n])
  }

  /** Reachable by some interleaving. */
  ghost predicate Reachable(s: State) {
    exists actions :: IsRun(actions, s)
  }

  // Ownership of the node

  predicate DispatchHolds(d: Dispatch) {
    !d.NotSpawned? && !d.Gone?
  }

  function Holds(c: Conn): nat {
    (if c.task.Reading? then 1 else 0) + (if DispatchHolds(c.dispatch) then 1 else 0)
  }

  function Holders(conns: seq<Conn>): nat {
    if conns == [] then 0 else Holders(conns[..|conns| - 1]) + Holds(conns[|conns| - 1])
  }

  /** One owner for the server, one for each connection task that has not
      dispatched yet, one for each dispatch task that is not gone. */
  ghost predicate OwnersCounted(s: State) {
    s.owners == Holders(s.conns) + (if ServerHolds(s.phase) then 1 else 0)
  }

  ghost predicate StateInv(s: State) {
    OwnersCounted(s) && forall i :: 0 <= i < |s.conns| ==> Inv(s.conns[i])
  }

  lemma {:induction false} HoldersAfterUpdate(conns: seq<Conn>, i: nat, c: Conn)
    requires i < |conns|
    ensures Holders(conns[i := c]) == Holders(conns) - Holds(conns[i]) + Holds(c)
  {
    var n := |conns| - 1;
    if i == n {
      assert conns[i := c][..n] == conns[..n];
    } else {
      assert conns[i := c][..n] == conns[..n][i := c];
      HoldersAfterUpdate(conns[..n], i, c);
    }
  }

  lemma DropsAreCounted(c: Conn, a: Action)
    requires Inv(c) && Enabled(c, a)
    ensures Holds(Next(c, a)) == Holds(c) - Drops(c, a)
  {
    hide Events, Handler, Forward, ClientInv;
  }

  lemma StepKeepsStateInv(s: State, a: ServerAction)
    requires StateInv(s) && CanAct(s, a)
    ensures StateInv(Step(s, a))
  {
    match a
    case Accept =>
      AcceptedInv();
      assert (s.conns + [ACCEPTED])[..|s.conns|] == s.conns;
    case Act(i, action) => ActKeepsStateInv(s, i, action);
    case _ =>
  }

  lemma ActKeepsStateInv(s: State, i: nat, action: Action)
    requires StateInv(s) && CanAct(s, Act(i, action))
    ensures StateInv(Step(s, Act(i, action)))
  {
    hide Inv, Enabled, Next, Drops, Holds, Holders;
    StepKeepsInv(s.conns[i], action);
    DropsAreCounted(s.conns[i], action);
    HoldersAfterUpdate(s.conns, i, Next(s.conns[i], action));
  }

  lemma {:induction false} RunInv(actions: seq<ServerAction>, s: State)
    requires IsRun(actions, s)
    ensures StateInv(s)
    decreases |actions|
  {
    if actions != [] {
      var n := |actions| - 1;
      var before :| IsRun(actions[..n], before) && CanAct(before, actions[n]) && s == Step(before, actions[n]);
      RunInv(actions[..n], before);
      StepKeepsStateInv(before, actions[n]);
    }
  }

  // Theorems over every reachable state

  lemma ReachableInv(s: State)
    requires Reachable(s)
    ensures StateInv(s)
  {
    var actions :| IsRun(actions, s);
    RunInv(actions, s);
  }

  /** Whatever the interleaving, the back-pressure, the disconnects and the
      shutdown: a client reads, in order, a prefix of the one answer its request
      has, and it finishes exactly when it has read the whole of it. */
  lemma ClientsReadTheirAnswer(s: State, i: nat)
    requires Reachable(s) && i < |s.conns|
    ensures Inv(s.conns[i])
    ensures var c := s.conns[i];
      match c.request
      case Some(r) =>
        && ReadSoFar(c) <= Answer(r) && WellFormedStream(Answer(r), r.id)
        && (c.client.Finished? <==> ReadSoFar(c) == Answer(r))
      case None =>
        |ReadSoFar(c)| <= 1 && (c.client.Finished? <==> |ReadSoFar(c)| == 1)
  {
    ReachableInv(s);
    if s.conns[i].request.Some? {
      ClientReadsPrefixOfAnswer(s.conns[i]);
    } else {
      RefusedClientReadsOneError(s.conns[i]);
    }
  }

  lemma NodeOwnersAreCounted(s: State)
    requires Reachable(s)
    ensures s.owners == Holders(s.conns) + (if ServerHolds(s.phase) then 1 else 0)
  {
    ReachableInv(s);
  }

  lemma {:induction false} NoHoldersIffAllGone(conns: seq<Conn>)
    requires AllTasksEnded(conns)
    ensures Holders(conns) == 0 <==> forall i :: 0 <= i < |conns| ==> !DispatchHolds(conns[i].dispatch)
  {
    if conns != [] {
      var n := |conns| - 1;
      NoHoldersIffAllGone(conns[..n]);
      assert forall i :: 0 <= i < n ==> conns[..n][i] == conns[i];
    }
  }

  /** After the drain or the abort the unwrap succeeds if and only if no dispatch
      task has outlived its connection task. */
  lemma UnwrapSucceedsIffNoDispatchLives(s: State)
    requires Reachable(s) && CanAct(s, Unwrap)
    ensures Step(s, Unwrap).phase == Closed <==>
      forall i :: 0 <= i < |s.conns| ==> s.conns[i].dispatch.NotSpawned? || s.conns[i].dispatch.Gone?
    ensures Step(s, Unwrap).phase == Closed || Step(s, Unwrap).phase == Panicked
    ensures Step(s, Unwrap).phase == Closed ==> Step(s, Unwrap).owners == 0
  {
    ReachableInv(s);
    NoHoldersIffAllGone(s.conns);
  }

  // Answers that arrive

  /** Reading, or served so far without a fault. */
  ghost predicate NotCut(c: Conn) {
    c.request.Some? ==> Undisturbed(c)
  }

  lemma FaultlessStepKeepsNotCut(c: Conn, a: Action)
    requires Inv(c) && NotCut(c) && Enabled(c, a) && IsFaultless(a)
    ensures NotCut(Next(c, a))
  {
    hide Inv, Undisturbed;
    if c.request.Some? {
      hide Enabled, Next;
      FaultlessStepKeepsUndisturbed(c, a);
    } else if a.ReadRequest? {
      ReadingIsUndisturbed(c, a);
    } else {
      OnlyReadingSetsRequest(c, a);
    }
  }

  lemma ReadingIsUndisturbed(c: Conn, a: Action)
    requires Enabled(c, a) && a.ReadRequest?
    ensures Undisturbed(Next(c, a))
  {
    hide Events, Handler;
  }

  lemma OnlyReadingSetsRequest(c: Conn, a: Action)
    requires Enabled(c, a) && !a.ReadRequest?
    ensures Next(c, a).request == c.request
  {
    hide Events, Handler, Forward;
  }

  /** In every run of the server, shutdowns of others included: a connection of
      which no write failed and that was not aborted has its whole answer on the
      socket as soon as its task is over. */
  lemma {:induction false} AnswersArriveUnlessCut(actions: seq<ServerAction>, s: State, i: nat)
    requires IsRun(actions, s) && i < |s.conns|
    requires forall a :: a in actions && a.Act? && a.i == i ==> IsFaultless(a.action)
    ensures NotCut(s.conns[i])
    ensures s.conns[i].task.Ended? && s.conns[i].request.Some? ==>
      s.conns[i].wire == Answer(s.conns[i].request.value)
    decreases |actions|
  {
    hide Undisturbed, Enabled, Next, Inv, Answer;
    if actions != [] {
      var n := |actions| - 1;
      var before :| IsRun(actions[..n], before) && CanAct(before, actions[n]) && s == Step(before, actions[n]);
      if i < |before.conns| {
        AnswersArriveUnlessCut(actions[..n], before, i);
        if actions[n].Act? && actions[n].i == i {
          RunInv(actions[..n], before);
          FaultlessStepKeepsNotCut(before.conns[i], actions[n].action);
        }
      }
    }
    EndedHasAnswer(s.conns[i]);
  }

  lemma EndedHasAnswer(c: Conn)
    requires NotCut(c)
    ensures c.task.Ended? && c.request.Some? ==> c.wire == Answer(c.request.value)
  {
    hide Answer;
  }

  // A clean shutdown can still panic

  lemma ReachableStep(s: State, a: ServerAction)
    requires Reachable(s) && CanAct(s, a)
    ensures Reachable(Step(s, a))
  {
    var actions :| IsRun(actions, s);
    assert (actions + [a])[..|actions|] == actions;
    assert IsRun(actions + [a], Step(s, a));
  }

  lemma StartIsReachable()
    ensures Reachable(BOUND)
  {
    assert IsRun([], BOUND);
  }

  lemma AdvanceOnly(c: Conn, permit: bool, owners: int, a: Action)
    requires Reachable(State(Accepting, permit, owners, [c])) && Enabled(c, a) && !a.Abort?
    ensures Reachable(State(Accepting, permit || a.NotifyShutdown?, owners - Drops(c, a), [Next(c, a)]))
  {
    var s := State(Accepting, permit, owners, [c]);
    assert [c][0 := Next(c, a)] == [Next(c, a)];
    ReachableStep(s, Act(0, a));
  }

  /** The only connection of a server: a shutdown request, taken up. */
  lemma ShutdownRequested(r: Request) returns (c: Conn)
    requires r.op.Shutdown?
    ensures Reachable(State(Accepting, true, 2, [c]))
    ensures c == Conn(Serving, Some(r), Running([]), [Event(r.id, Done)], [], [Event(r.id, Done)], Waiting, 0)
  {
    hide Reachable, Events;
    var done := Event(r.id, Done);
    StartIsReachable();
    ReachableStep(BOUND, Accept);
    assert [] + [ACCEPTED] == [ACCEPTED];
    AdvanceOnly(ACCEPTED, false, 2, ReadRequest(r));
    c := Conn(Serving, Some(r), Running([Emit(Done), Notify]), [], [], [], Waiting, 0);
    AdvanceOnly(c, false, 2, SendNext);
    assert [Emit(Done), Notify][1..] == [Notify] && [] + [done] == [done];
    c := c.(dispatch := Running([Notify]), queue := [done], log := [done]);
    AdvanceOnly(c, false, 2, NotifyShutdown);
    assert [Notify][1..] == [];
    c := c.(dispatch := Running([]));
  }

  /** The answer is relayed and read, and the channel seen closed, while the
      dispatch task is between its two drops. */
  lemma ShutdownAnswered(r: Request) returns (c: Conn)
    requires r.op.Shutdown?
    ensures Reachable(State(Accepting, true, 2, [c]))
    ensures c == Conn(Ended, Some(r), SenderDropped, [], [Event(r.id, Done)], [Event(r.id, Done)], Finished, 1)
  {
    hide Reachable, Events, Handler;
    var done := Event(r.id, Done);
    c := ShutdownRequested(r);
    AdvanceOnly(c, true, 2, Return);
    AdvanceOnly(c.(dispatch := Returning), true, 2, DropSender);
    c := c.(dispatch := SenderDropped);
    AdvanceOnly(c, true, 2, Relay);
    assert [done][1..] == [] && [] + [done] == [done];
    c := c.(queue := [], wire := [done]);
    AdvanceOnly(c, true, 2, ClientReads);
    c := c.(read := 1, client := Finished);
    AdvanceOnly(c, true, 2, SeeChannelClosed);
    c := c.(task := Ended);
  }

  /** One client asks for a shutdown and reads the whole answer; nothing is
      aborted and no write fails. The dispatch task drops its channel sender
      before its node, so the drain can end in between: the unwrap panics. */
  lemma CleanShutdownCanPanic(r: Request) returns (s: State)
    requires r.op.Shutdown?
    ensures Reachable(s) && s.phase.Panicked?
    ensures |s.conns| == 1 && s.conns[0].request == Some(r)
    ensures s.conns[0].client.Finished? && s.conns[0].wire == Answer(r)
  {
    var c := ShutdownAnswered(r);
    s := State(Accepting, true, 2, [c]);
    ClientsReadTheirAnswer(s, 0);
    assert c.wire[..1] == c.wire;
    ReachableStep(s, TakeShutdown);
    s := State(Draining, false, 2, [c]);
    ReachableStep(s, Unwrap);
    s := State(Panicked, false, 1, [c]);
  }
}
