/** The log of the gateway, read off what happened to it: which payloads came
    in, which sends went through and which ticks fired, in their order. Nothing
    here looks at what the read loop or a heartbeat task recorded. */
module DiscordHistory {
  import opened Wrappers
  import opened DiscordGateway
  import opened DiscordResume

  // A step that is not possible where the run stands does not happen.
  predicate Taken(gatewayUrl: string, before: seq<Action>, a: Action) {
    Enabled(Run(gatewayUrl, before), a)
  }

  // The payload received and not yet acted on
  function Pending(gatewayUrl: string, actions: seq<Action>): Option<Op> {
    if |actions| == 0 then None
    else
      var before, a := actions[..|actions| - 1], actions[|actions| - 1];
      if !Taken(gatewayUrl, before, a) then Pending(gatewayUrl, before)
      else if a.Receive? then Some(a.op)
      else if a.HandleOp? || a.ConsumerGone? then None
      else Pending(gatewayUrl, before)
  }

  // The payload that step a acts on
  function ActedOn(gatewayUrl: string, before: seq<Action>, a: Action): Option<Op> {
    if a.HandleOp? && Taken(gatewayUrl, before, a) then Pending(gatewayUrl, before) else None
  }

  // The session of the latest READY, unless it was invalidated for good since
  function KnownSession(gatewayUrl: string, actions: seq<Action>): Option<string> {
    if |actions| == 0 then None
    else
      var before, a := actions[..|actions| - 1], actions[|actions| - 1];
      match ActedOn(gatewayUrl, before, a)
      case Some(Ready(sid, _)) => Some(sid)
      case Some(InvalidSession(false)) => None
      case _ => KnownSession(gatewayUrl, before)
  }

  // The sequence number of the latest payload that carried one, likewise
  function KnownSequence(gatewayUrl: string, actions: seq<Action>): Option<nat> {
    if |actions| == 0 then None
    else
      var before, a := actions[..|actions| - 1], actions[|actions| - 1];
      if a.Receive? && a.s.Some? && Taken(gatewayUrl, before, a) then a.s
      else if ActedOn(gatewayUrl, before, a) == Some(InvalidSession(false)) then None
      else KnownSequence(gatewayUrl, before)
  }

  // The address named by the latest READY that named one
  function KnownUrl(gatewayUrl: string, actions: seq<Action>): Option<string> {
    if |actions| == 0 then None
    else
      var before, a := actions[..|actions| - 1], actions[|actions| - 1];
      match ActedOn(gatewayUrl, before, a)
      case Some(Ready(_, url)) => if url != "" then Some(url) else KnownUrl(gatewayUrl, before)
      case _ => KnownUrl(gatewayUrl, before)
  }

  function Connections(gatewayUrl: string, actions: seq<Action>): nat {
    if |actions| == 0 then 0
    else
      var before, a := actions[..|actions| - 1], actions[|actions| - 1];
      Connections(gatewayUrl, before) + (if a == Connect(true) && Taken(gatewayUrl, before, a) then 1 else 0)
  }

  function Hellos(gatewayUrl: string, actions: seq<Action>): nat {
    if |actions| == 0 then 0
    else
      var before, a := actions[..|actions| - 1], actions[|actions| - 1];
      Hellos(gatewayUrl, before) + (if ActedOn(gatewayUrl, before, a) == Some(Hello) then 1 else 0)
  }

  // Sleeps since the last connection was opened
  function Sleeps(gatewayUrl: string, actions: seq<Action>): nat {
    if |actions| == 0 then 0
    else
      var before, a := actions[..|actions| - 1], actions[|actions| - 1];
      if !Taken(gatewayUrl, before, a) then Sleeps(gatewayUrl, before)
      else if a == Connect(true) then 0
      else Sleeps(gatewayUrl, before) + (if a.Sleep? then 1 else 0)
  }

  // A heartbeat may go out: a connection, a HELLO or an ACK came after the last
  // tick and the last clearing.
  predicate MayBeat(gatewayUrl: string, actions: seq<Action>) {
    |actions| > 0 &&
    var before, a := actions[..|actions| - 1], actions[|actions| - 1];
    if !Taken(gatewayUrl, before, a) then MayBeat(gatewayUrl, before)
    else if a == Connect(true) || ActedOn(gatewayUrl, before, a) in {Some(Hello), Some(HeartbeatAck)} then true
    else if a.ClearGate? || (a.HeartbeatTask? && a.move.Tick?) then false
    else MayBeat(gatewayUrl, before)
  }

  // The sequence number known when task t last read it
  function Carried(gatewayUrl: string, actions: seq<Action>, t: nat): Option<nat> {
    if |actions| == 0 then None
    else
      var before, a := actions[..|actions| - 1], actions[|actions| - 1];
      if a == HeartbeatTask(t, LoadSequence) && Taken(gatewayUrl, before, a) then KnownSequence(gatewayUrl, before)
      else Carried(gatewayUrl, before, t)
  }

  // What acting on a payload shows to the outside
  function ShownPayload(gatewayUrl: string, before: seq<Action>, op: Op): seq<Event> {
    var conn := Connections(gatewayUrl, before) - 1;
    match op
    case Hello => if conn >= 0 then [Spawned(Hellos(gatewayUrl, before), conn)] else []
    case Ready(sid, url) => [ReadySeen(sid, url)]
    case HeartbeatRequest => [RequestedBeat(KnownSequence(gatewayUrl, before))]
    case HeartbeatAck => if conn >= 0 then [AckSeen(conn)] else []
    case InvalidSession(resumable) => if resumable then [] else [SessionInvalidated]
    case _ => []
  }

  function ShownMove(gatewayUrl: string, before: seq<Action>, t: nat, move: TaskMove): seq<Event> {
    var conn := Connections(gatewayUrl, before) - 1;
    match move
    case Tick =>
      if conn < 0 then []
      else if MayBeat(gatewayUrl, before) then [GatePassed(t, conn)]
      else [GateBlocked(t, conn)]
    case SendBeat(ok) => if ok then [BeatSent(t, Carried(gatewayUrl, before, t))] else []
    case CloseSink => [SinkClosed(t)]
    case _ => []
  }

  // What step a shows to the outside when it is taken
  function Shown(gatewayUrl: string, before: seq<Action>, a: Action): seq<Event> {
    match a
    case Connect(ok) =>
      if !ok then []
      else if KnownUrl(gatewayUrl, before).Some? then
        [Connected(Connections(gatewayUrl, before), KnownUrl(gatewayUrl, before).value + "/?v=10&encoding=json")]
      else [Connected(Connections(gatewayUrl, before), gatewayUrl)]
    case Receive(s, _) => if s.Some? then [SequenceSeen(s.value)] else []
    case HandleOp =>
      if Pending(gatewayUrl, before).Some? then ShownPayload(gatewayUrl, before, Pending(gatewayUrl, before).value)
      else []
    case Reply(ok) =>
      var session, sequence := KnownSession(gatewayUrl, before), KnownSequence(gatewayUrl, before);
      if !ok then []
      else if session.Some? && sequence.Some? then [ResumeSent(session.value, sequence.value)]
      else [IdentifySent]
    case ClearGate =>
      if Connections(gatewayUrl, before) > 0 then [GateCleared(Connections(gatewayUrl, before) - 1)] else []
    case Sleep => [Slept(BackoffAfter(Sleeps(gatewayUrl, before)))]
    case HeartbeatTask(t, move) => ShownMove(gatewayUrl, before, t, move)
    case _ => []
  }

  function History(gatewayUrl: string, actions: seq<Action>): seq<Event> {
    if |actions| == 0 then []
    else
      var before, a := actions[..|actions| - 1], actions[|actions| - 1];
      History(gatewayUrl, before) + (if Taken(gatewayUrl, before, a) then Shown(gatewayUrl, before, a) else [])
  }

  // ---------- the fields of the gateway are what these functions say ----------

  ghost predicate Mirrors(gatewayUrl: string, actions: seq<Action>) {
    var g := Run(gatewayUrl, actions);
    && MirrorsMemory(gatewayUrl, actions, g)
    && MirrorsCounts(gatewayUrl, actions, g)
    && MirrorsBeats(gatewayUrl, actions, g)
    && g.log == History(gatewayUrl, actions)
  }

  ghost predicate MirrorsMemory(gatewayUrl: string, actions: seq<Action>, g: Gateway) {
    && Pending(gatewayUrl, actions) == (if g.reader.Handling? then Some(g.reader.op) else None)
    && g.session == KnownSession(gatewayUrl, actions)
    && g.sequence == KnownSequence(gatewayUrl, actions)
    && g.resumeUrl == KnownUrl(gatewayUrl, actions)
  }

  ghost predicate MirrorsCounts(gatewayUrl: string, actions: seq<Action>, g: Gateway) {
    && |g.acked| == Connections(gatewayUrl, actions)
    && g.nextTask == Hellos(gatewayUrl, actions)
    && g.backoff == BackoffAfter(Sleeps(gatewayUrl, actions))
    && (|g.acked| > 0 ==> g.acked[|g.acked| - 1] == MayBeat(gatewayUrl, actions))
  }

  ghost predicate MirrorsBeats(gatewayUrl: string, actions: seq<Action>, g: Gateway) {
    forall t :: t in g.tasks && g.tasks[t].beat.Loaded? ==>
      g.tasks[t].beat.sequence == Carried(gatewayUrl, actions, t)
  }

  lemma AbortLeavesRest(g: Gateway)
    ensures Aborted(g) == g.(handle := None, tasks := Aborted(g).tasks) && Aborted(g).tasks.Keys <= g.tasks.Keys
    ensures forall t :: t in Aborted(g).tasks ==> Aborted(g).tasks[t] == g.tasks[t]
  {
  }

  // One more step, and what the four views of the past become
  lemma MemoryGrows(gatewayUrl: string, before: seq<Action>, a: Action)
    requires Taken(gatewayUrl, before, a)
    ensures var acted := ActedOn(gatewayUrl, before, a);
            var after := before + [a];
            && Pending(gatewayUrl, after) == (if a.Receive? then Some(a.op)
                                              else if a.HandleOp? || a.ConsumerGone? then None
                                              else Pending(gatewayUrl, before))
            && KnownSession(gatewayUrl, after) == (if acted.Some? && acted.value.Ready? then Some(acted.value.session)
                                                   else if acted == Some(InvalidSession(false)) then None
                                                   else KnownSession(gatewayUrl, before))
            && KnownSequence(gatewayUrl, after) == (if a.Receive? && a.s.Some? then a.s
                                                    else if acted == Some(InvalidSession(false)) then None
                                                    else KnownSequence(gatewayUrl, before))
            && KnownUrl(gatewayUrl, after) == (if acted.Some? && acted.value.Ready? && acted.value.resumeUrl != "" then
                                                 Some(acted.value.resumeUrl)
                                               else KnownUrl(gatewayUrl, before))
  {
    hide Run, Enabled;
    assert (before + [a])[..|before|] == before;
  }

  lemma CountsGrow(gatewayUrl: string, before: seq<Action>, a: Action)
    requires Taken(gatewayUrl, before, a)
    ensures var acted := ActedOn(gatewayUrl, before, a);
            var after := before + [a];
            && Connections(gatewayUrl, after) == Connections(gatewayUrl, before) + (if a == Connect(true) then 1 else 0)
            && Hellos(gatewayUrl, after) == Hellos(gatewayUrl, before) + (if acted == Some(Hello) then 1 else 0)
            && Sleeps(gatewayUrl, after) == (if a == Connect(true) then 0
                                             else Sleeps(gatewayUrl, before) + (if a.Sleep? then 1 else 0))
            && MayBeat(gatewayUrl, after) == (if a == Connect(true) || acted == Some(Hello)
                                                 || acted == Some(HeartbeatAck) then true
                                              else if a.ClearGate? || (a.HeartbeatTask? && a.move.Tick?) then false
                                              else MayBeat(gatewayUrl, before))
  {
    hide Run, Enabled;
    assert (before + [a])[..|before|] == before;
  }

  lemma LogGrows(gatewayUrl: string, before: seq<Action>, a: Action)
    requires Taken(gatewayUrl, before, a)
    ensures Run(gatewayUrl, before + [a]) == Step(Run(gatewayUrl, before), a)
    ensures History(gatewayUrl, before + [a]) == History(gatewayUrl, before) + Shown(gatewayUrl, before, a)
    ensures forall t :: Carried(gatewayUrl, before + [a], t) ==
                        if a == HeartbeatTask(t, LoadSequence) then KnownSequence(gatewayUrl, before)
                        else Carried(gatewayUrl, before, t)
  {
    hide Enabled, Step, Shown;
    assert (before + [a])[..|before|] == before;
  }

  lemma SkippedMirrors(gatewayUrl: string, before: seq<Action>, a: Action)
    requires Mirrors(gatewayUrl, before) && !Taken(gatewayUrl, before, a)
    ensures Mirrors(gatewayUrl, before + [a])
  {
    assert (before + [a])[..|before|] == before;
  }

  lemma TickMirrors(gatewayUrl: string, before: seq<Action>, a: Action)
    requires Mirrors(gatewayUrl, before) && a.HeartbeatTask? && a.move.Tick? && Taken(gatewayUrl, before, a)
    ensures Mirrors(gatewayUrl, before + [a])
  {
    hide Run, Pending, KnownSession, KnownSequence, KnownUrl, Connections, Hellos, Sleeps, MayBeat, Carried, History;
    hide BackoffAfter;
    RunKeepsTasks(gatewayUrl, before);
    MemoryGrows(gatewayUrl, before, a);
    CountsGrow(gatewayUrl, before, a);
    LogGrows(gatewayUrl, before, a);
  }

  // A move other than a tick touches its own task only.
  lemma MoveFields(g: Gateway, t: nat, move: TaskMove)
    requires TaskEnabled(g, t, move) && !move.Tick?
    ensures var next := TaskStep(g, t, move);
            && next == g.(tasks := next.tasks, log := next.log)
            && (forall u :: u in next.tasks && u != t ==> u in g.tasks && next.tasks[u] == g.tasks[u])
            && (t in next.tasks && next.tasks[t].beat.Loaded? ==>
                  move.LoadSequence? && next.tasks[t].beat.sequence == g.sequence)
            && next.log == g.log + (match move
                                    case SendBeat(ok) => if ok then [BeatSent(t, g.tasks[t].beat.sequence)] else []
                                    case CloseSink => [SinkClosed(t)]
                                    case _ => [])
  {
  }

  lemma MoveMirrors(gatewayUrl: string, before: seq<Action>, a: Action)
    requires Mirrors(gatewayUrl, before) && a.HeartbeatTask? && !a.move.Tick? && Taken(gatewayUrl, before, a)
    ensures Mirrors(gatewayUrl, before + [a])
  {
    hide Run, Pending, KnownSession, KnownSequence, KnownUrl, Connections, Hellos, Sleeps, MayBeat, Carried, History;
    hide BackoffAfter, TaskStep;
    MoveFields(Run(gatewayUrl, before), a.task, a.move);
    MemoryGrows(gatewayUrl, before, a);
    CountsGrow(gatewayUrl, before, a);
    LogGrows(gatewayUrl, before, a);
  }

  lemma HelloMirrors(gatewayUrl: string, before: seq<Action>, a: Action)
    requires Mirrors(gatewayUrl, before) && a.HandleOp? && Taken(gatewayUrl, before, a)
    requires Run(gatewayUrl, before).reader.op == Hello
    ensures Mirrors(gatewayUrl, before + [a])
  {
    hide Run, Pending, KnownSession, KnownSequence, KnownUrl, Connections, Hellos, Sleeps, MayBeat, Carried, History;
    hide BackoffAfter;
    RunKeepsTasks(gatewayUrl, before);
    MemoryGrows(gatewayUrl, before, a);
    CountsGrow(gatewayUrl, before, a);
    LogGrows(gatewayUrl, before, a);
  }

  lemma HandleMirrors(gatewayUrl: string, before: seq<Action>, a: Action)
    requires Mirrors(gatewayUrl, before) && a.HandleOp? && Taken(gatewayUrl, before, a)
    requires Run(gatewayUrl, before).reader.op != Hello
    ensures Mirrors(gatewayUrl, before + [a])
  {
    hide Run, Pending, KnownSession, KnownSequence, KnownUrl, Connections, Hellos, Sleeps, MayBeat, Carried, History;
    hide BackoffAfter;
    MemoryGrows(gatewayUrl, before, a);
    CountsGrow(gatewayUrl, before, a);
    LogGrows(gatewayUrl, before, a);
  }

  // Steps of the read loop inside a connection
  predicate IsInner(a: Action) {
    a.SignalShutdown? || a.Receive? || a.StreamEnds? || a.Reply? || a.ClearGate?
  }

  lemma InnerMirrors(gatewayUrl: string, before: seq<Action>, a: Action)
    requires Mirrors(gatewayUrl, before) && IsInner(a) && Taken(gatewayUrl, before, a)
    ensures Mirrors(gatewayUrl, before + [a])
  {
    hide Run, Pending, KnownSession, KnownSequence, KnownUrl, Connections, Hellos, Sleeps, MayBeat, Carried, History;
    hide BackoffAfter;
    MemoryGrows(gatewayUrl, before, a);
    CountsGrow(gatewayUrl, before, a);
    LogGrows(gatewayUrl, before, a);
  }

  lemma ConnectMirrors(gatewayUrl: string, before: seq<Action>, a: Action)
    requires Mirrors(gatewayUrl, before) && Taken(gatewayUrl, before, a) && a.Connect?
    ensures Mirrors(gatewayUrl, before + [a])
  {
    hide Run, Pending, KnownSession, KnownSequence, KnownUrl, Connections, Hellos, Sleeps, MayBeat, Carried, History;
    hide Remembers, Address;
    RunRemembers(gatewayUrl, before);
    RemembersAddress(gatewayUrl, Run(gatewayUrl, before));
    MemoryGrows(gatewayUrl, before, a);
    CountsGrow(gatewayUrl, before, a);
    LogGrows(gatewayUrl, before, a);
  }

  lemma OuterMirrors(gatewayUrl: string, before: seq<Action>, a: Action)
    requires Mirrors(gatewayUrl, before) && Taken(gatewayUrl, before, a)
    requires !a.HeartbeatTask? && !a.HandleOp? && !IsInner(a) && !a.Connect?
    ensures Mirrors(gatewayUrl, before + [a])
  {
    hide Run, Pending, KnownSession, KnownSequence, KnownUrl, Connections, Hellos, Sleeps, MayBeat, Carried, History;
    hide Doubled, Aborted;
    AbortLeavesRest(Run(gatewayUrl, before));
    MemoryGrows(gatewayUrl, before, a);
    CountsGrow(gatewayUrl, before, a);
    LogGrows(gatewayUrl, before, a);
  }

  lemma {:induction false} RunMirrors(gatewayUrl: string, actions: seq<Action>)
    ensures Mirrors(gatewayUrl, actions)
  {
    if |actions| > 0 {
      hide Mirrors, Taken;
      var before, a := actions[..|actions| - 1], actions[|actions| - 1];
      assert actions == before + [a];
      RunMirrors(gatewayUrl, before);
      if !Taken(gatewayUrl, before, a) {
        SkippedMirrors(gatewayUrl, before, a);
      } else if a.HeartbeatTask? {
        if a.move.Tick? {
          TickMirrors(gatewayUrl, before, a);
        } else {
          MoveMirrors(gatewayUrl, before, a);
        }
      } else if a.HandleOp? {
        if Run(gatewayUrl, before).reader.op == Hello {
          HelloMirrors(gatewayUrl, before, a);
        } else {
          HandleMirrors(gatewayUrl, before, a);
        }
      } else if IsInner(a) {
        InnerMirrors(gatewayUrl, before, a);
      } else if a.Connect? {
        ConnectMirrors(gatewayUrl, before, a);
      } else {
        OuterMirrors(gatewayUrl, before, a);
      }
    }
  }

  // On every run the log is the history of what happened: each payload, send,
  // tick and sleep shows exactly what it should, and nothing else is logged.
  lemma LogIsHistory(gatewayUrl: string, actions: seq<Action>)
    ensures Run(gatewayUrl, actions).log == History(gatewayUrl, actions)
  {
    hide Run, History, MirrorsMemory, MirrorsCounts, MirrorsBeats;
    RunMirrors(gatewayUrl, actions);
  }

  // ---------- what a HELLO is answered with ----------

  // The answer to a HELLO is RESUME exactly when a session and a sequence
  // number are known, and then with these; else it is IDENTIFY.
  lemma HelloAnswer(gatewayUrl: string, actions: seq<Action>)
    requires Taken(gatewayUrl, actions, Reply(true))
    ensures var session, sequence := KnownSession(gatewayUrl, actions), KnownSequence(gatewayUrl, actions);
            Run(gatewayUrl, actions + [Reply(true)]).log == Run(gatewayUrl, actions).log +
            (if session.Some? && sequence.Some? then [ResumeSent(session.value, sequence.value)] else [IdentifySent])
  {
    hide Run, History, KnownSession, KnownSequence, Taken;
    LogIsHistory(gatewayUrl, actions);
    LogIsHistory(gatewayUrl, actions + [Reply(true)]);
    LogGrows(gatewayUrl, actions, Reply(true));
  }

  // Step k of the run acts on the payload op.
  ghost predicate ActsAt(gatewayUrl: string, actions: seq<Action>, k: nat, op: Op) {
    k < |actions| && ActedOn(gatewayUrl, actions[..k], actions[k]) == Some(op)
  }

  ghost predicate NoReadyBetween(gatewayUrl: string, actions: seq<Action>, i: nat, j: nat) {
    forall k: nat, op: Op | i < k < j && op.Ready? :: !ActsAt(gatewayUrl, actions, k, op)
  }

  lemma PrefixActs(gatewayUrl: string, actions: seq<Action>, n: nat, k: nat, op: Op)
    requires n <= |actions| && k < n
    ensures ActsAt(gatewayUrl, actions[..n], k, op) <==> ActsAt(gatewayUrl, actions, k, op)
  {
    hide ActedOn;
    assert actions[..n][..k] == actions[..k];
  }

  lemma {:induction false} ForgottenUntilReady(gatewayUrl: string, actions: seq<Action>, i: nat)
    requires ActsAt(gatewayUrl, actions, i, InvalidSession(false))
    requires NoReadyBetween(gatewayUrl, actions, i, |actions|)
    ensures KnownSession(gatewayUrl, actions).None?
  {
    hide ActedOn;
    var n := |actions| - 1;
    if i < n {
      PrefixActs(gatewayUrl, actions, n, i, InvalidSession(false));
      forall k: nat, op: Op | i < k < n && op.Ready?
        ensures !ActsAt(gatewayUrl, actions[..n], k, op)
      {
        PrefixActs(gatewayUrl, actions, n, k, op);
      }
      ForgottenUntilReady(gatewayUrl, actions[..n], i);
      assert forall op: Op | op.Ready? :: !ActsAt(gatewayUrl, actions, n, op);
    }
  }

  // After an INVALID_SESSION that is not resumable, every HELLO is answered
  // with IDENTIFY until a READY has come.
  lemma NoResumeAfterInvalidSession(gatewayUrl: string, actions: seq<Action>, i: nat)
    requires ActsAt(gatewayUrl, actions, i, InvalidSession(false))
    requires NoReadyBetween(gatewayUrl, actions, i, |actions|)
    requires Taken(gatewayUrl, actions, Reply(true))
    ensures Run(gatewayUrl, actions + [Reply(true)]).log == Run(gatewayUrl, actions).log + [IdentifySent]
  {
    hide Run, Taken;
    ForgottenUntilReady(gatewayUrl, actions, i);
    HelloAnswer(gatewayUrl, actions);
  }

  // A new session begins, or the old one is gone for good.
  predicate EndsSession(op: Op) {
    op.Ready? || op == InvalidSession(false)
  }

  // No such payload is acted on after step i.
  ghost predicate SessionUndisturbed(gatewayUrl: string, actions: seq<Action>, i: nat) {
    forall k: nat, op: Op | i < k && EndsSession(op) :: !ActsAt(gatewayUrl, actions, k, op)
  }

  lemma UndisturbedPrefix(gatewayUrl: string, actions: seq<Action>, i: nat)
    requires i < |actions| - 1 && SessionUndisturbed(gatewayUrl, actions, i)
    ensures SessionUndisturbed(gatewayUrl, actions[..|actions| - 1], i)
    ensures var acted := ActedOn(gatewayUrl, actions[..|actions| - 1], actions[|actions| - 1]);
            acted.Some? ==> !EndsSession(acted.value)
  {
    hide ActedOn;
    var n := |actions| - 1;
    forall k: nat, op: Op | i < k && EndsSession(op)
      ensures !ActsAt(gatewayUrl, actions[..n], k, op)
    {
      if k < n {
        PrefixActs(gatewayUrl, actions, n, k, op);
      }
    }
    assert forall op: Op | EndsSession(op) :: !ActsAt(gatewayUrl, actions, n, op);
  }

  lemma {:induction false} RememberedUntilReady(gatewayUrl: string, actions: seq<Action>, i: nat)
    requires ActsAt(gatewayUrl, actions, i, InvalidSession(true))
    requires SessionUndisturbed(gatewayUrl, actions, i)
    ensures KnownSession(gatewayUrl, actions) == KnownSession(gatewayUrl, actions[..i])
    ensures KnownSequence(gatewayUrl, actions[..i]).Some? ==> KnownSequence(gatewayUrl, actions).Some?
  {
    hide ActedOn, SessionUndisturbed;
    var n := |actions| - 1;
    if i < n {
      PrefixActs(gatewayUrl, actions, n, i, InvalidSession(true));
      UndisturbedPrefix(gatewayUrl, actions, i);
      RememberedUntilReady(gatewayUrl, actions[..n], i);
      assert actions[..n][..i] == actions[..i];
    }
  }

  // After a resumable INVALID_SESSION the session that was known is resumed,
  // with the newest sequence number.
  lemma ResumeAfterResumable(gatewayUrl: string, actions: seq<Action>, i: nat)
    requires ActsAt(gatewayUrl, actions, i, InvalidSession(true))
    requires SessionUndisturbed(gatewayUrl, actions, i)
    requires KnownSession(gatewayUrl, actions[..i]).Some? && KnownSequence(gatewayUrl, actions[..i]).Some?
    requires Taken(gatewayUrl, actions, Reply(true))
    ensures KnownSequence(gatewayUrl, actions).Some?
    ensures Run(gatewayUrl, actions + [Reply(true)]).log == Run(gatewayUrl, actions).log +
            [ResumeSent(KnownSession(gatewayUrl, actions[..i]).value, KnownSequence(gatewayUrl, actions).value)]
  {
    hide Run, Taken, KnownSession, KnownSequence, ActsAt, SessionUndisturbed;
    RememberedUntilReady(gatewayUrl, actions, i);
    HelloAnswer(gatewayUrl, actions);
  }

  // ---------- what can happen next ----------

  lemma StepShutdown(g: Gateway, a: Action)
    ensures Step(g, a).shutdown == (g.shutdown || a.SignalShutdown?)
  {
    hide Doubled, Aborted;
    AbortLeavesRest(g);
  }

  // Shutdown is signalled once and for all.
  lemma {:induction false} ShutdownIsSignalled(gatewayUrl: string, actions: seq<Action>)
    ensures Run(gatewayUrl, actions).shutdown <==> SignalShutdown in actions
  {
    if |actions| > 0 {
      var before, a := actions[..|actions| - 1], actions[|actions| - 1];
      hide Step;
      ShutdownIsSignalled(gatewayUrl, before);
      StepShutdown(Run(gatewayUrl, before), a);
      assert actions == before + [a];
    }
  }

  // The step of the read loop that comes after step a, which acted on the
  // payload acted, if on any: a HELLO is followed by the answer, a requested
  // heartbeat by the clearing of the flag, RECONNECT and INVALID_SESSION by the
  // end of the connection, and every other payload by the next one.
  ghost predicate Continues(g: Gateway, a: Action, acted: Option<Op>, stopping: bool) {
    var leaves := acted == Some(Reconnect) || (acted.Some? && acted.value.InvalidSession?);
    var goesOn := a == Connect(true) || a == Reply(true) || a.ClearGate?
                 || (acted.Some? && acted != Some(Hello) && acted != Some(HeartbeatRequest) && !leaves);
    && (forall s: Option<nat>, op: Op :: Enabled(g, Receive(s, op)) <==> goesOn)
    && (Enabled(g, StreamEnds) <==> goesOn)
    && (Enabled(g, SeeShutdown) <==> stopping && (goesOn || a.Sleep?))
    && (Enabled(g, HandleOp) <==> a.Receive?)
    && (Enabled(g, ConsumerGone) <==> a.Receive? && a.op == Dispatch)
    && (forall ok :: Enabled(g, Reply(ok)) <==> acted == Some(Hello))
    && (Enabled(g, ClearGate) <==> acted == Some(HeartbeatRequest))
    && (Enabled(g, TearDown) <==> a.StreamEnds? || a == Reply(false) || leaves)
    && (Enabled(g, Sleep) <==> a == Connect(false) || (a.TearDown? && !stopping))
    && (forall ok :: Enabled(g, Connect(ok)) <==> a.Sleep? && !stopping)
  }

  lemma HandleContinues(g: Gateway, op: Op)
    requires |g.acked| > 0
    ensures Continues(Handle(g, op), HandleOp, Some(op), g.shutdown)
  {
    hide Aborted;
    AbortLeavesRest(g);
  }

  lemma InnerContinues(g: Gateway, a: Action)
    requires Enabled(g, a) && IsInner(a) && !a.SignalShutdown?
    requires g.reader.Waiting? ==> |g.acked| > 0
    ensures Continues(ReaderStep(g, a), a, None, g.shutdown)
  {
  }

  lemma OuterContinues(g: Gateway, a: Action)
    requires Enabled(g, a) && !IsInner(a) && !a.HeartbeatTask? && !a.HandleOp?
    ensures Continues(ReaderStep(g, a), a, None, g.shutdown)
  {
    hide Doubled, Aborted;
    AbortLeavesRest(g);
  }

  lemma WhatFollows(gatewayUrl: string, actions: seq<Action>, a: Action)
    requires Taken(gatewayUrl, actions, a) && !a.SignalShutdown? && !a.HeartbeatTask?
    ensures Continues(Run(gatewayUrl, actions + [a]), a, ActedOn(gatewayUrl, actions, a), SignalShutdown in actions)
  {
    hide Run, MirrorsCounts, MirrorsBeats, History, Pending, Continues, ReaderStep, Handle;
    RunMirrors(gatewayUrl, actions);
    LogGrows(gatewayUrl, actions, a);
    RunKeepsTasks(gatewayUrl, actions);
    ShutdownIsSignalled(gatewayUrl, actions);
    var g := Run(gatewayUrl, actions);
    if a.HandleOp? {
      HandleContinues(g, g.reader.op);
    } else if IsInner(a) {
      InnerContinues(g, a);
    } else {
      OuterContinues(g, a);
    }
  }

  // Neither the signal nor a heartbeat task moves the read loop.
  lemma OthersLeaveReader(gatewayUrl: string, actions: seq<Action>, a: Action)
    requires a.SignalShutdown? || a.HeartbeatTask? || !Taken(gatewayUrl, actions, a)
    ensures Run(gatewayUrl, actions + [a]).reader == Run(gatewayUrl, actions).reader
  {
    assert (actions + [a])[..|actions|] == actions;
  }

  // A HELLO leaves exactly one heartbeat task, waiting for its first tick.
  lemma HelloStartsTask(gatewayUrl: string, actions: seq<Action>)
    requires ActedOn(gatewayUrl, actions, HandleOp) == Some(Hello)
    ensures Connections(gatewayUrl, actions) > 0
    ensures Run(gatewayUrl, actions + [HandleOp]).tasks ==
            map[Hellos(gatewayUrl, actions) := Task(Connections(gatewayUrl, actions) - 1, Ticking)]
  {
    hide Run, MirrorsBeats, History, Pending, Aborted, Connections, Hellos;
    RunMirrors(gatewayUrl, actions);
    LogGrows(gatewayUrl, actions, HandleOp);
    RunKeepsTasks(gatewayUrl, actions);
    AbortKillsAll(Run(gatewayUrl, actions));
    AbortLeavesRest(Run(gatewayUrl, actions));
  }

  // A tick leads to a heartbeat when one may go out and to closing the sink
  // otherwise; the task waits again after a heartbeat that was sent, and ends
  // after one that was not, after closing the sink and on shutdown.
  lemma WhatTaskDoesNext(gatewayUrl: string, actions: seq<Action>, t: nat, move: TaskMove)
    requires Taken(gatewayUrl, actions, HeartbeatTask(t, move))
    ensures var g := Run(gatewayUrl, actions + [HeartbeatTask(t, move)]);
            && (TaskEnabled(g, t, LoadSequence) <==> move.Tick? && MayBeat(gatewayUrl, actions))
            && (TaskEnabled(g, t, CloseSink) <==> move.Tick? && !MayBeat(gatewayUrl, actions))
            && (forall ok :: TaskEnabled(g, t, SendBeat(ok)) <==> move.LoadSequence?)
            && (TaskEnabled(g, t, Tick) <==> move == SendBeat(true))
            && (t in g.tasks <==> move.Tick? || move.LoadSequence? || move == SendBeat(true))
  {
    hide Run, MirrorsMemory, MirrorsBeats, History, MayBeat;
    RunMirrors(gatewayUrl, actions);
    LogGrows(gatewayUrl, actions, HeartbeatTask(t, move));
    RunKeepsTasks(gatewayUrl, actions);
  }
}
