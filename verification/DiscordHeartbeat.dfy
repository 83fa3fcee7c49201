/** Heartbeat safety over every run of the gateway, read off the event log. */
module DiscordHeartbeat {
  import opened Wrappers
  import opened DiscordGateway

  // ---------- the life of one heartbeat task ----------

  predicate Concerns(e: Event, t: nat) {
    match e
    case Spawned(u, _) => u == t
    case GatePassed(u, _) => u == t
    case GateBlocked(u, _) => u == t
    case BeatSent(u, _) => u == t
    case SinkClosed(u) => u == t
    case _ => false
  }

  // The last thing task t did
  function LastOf(log: seq<Event>, t: nat): Option<Event> {
    if |log| == 0 then None
    else if Concerns(log[|log| - 1], t) then Some(log[|log| - 1])
    else LastOf(log[..|log| - 1], t)
  }

  predicate IsReady(last: Option<Event>) {
    last.Some? && (last.value.Spawned? || last.value.BeatSent?)
  }

  // What task t must have done just before it does e
  predicate InOrder(e: Event, last: Option<Event>) {
    match e
    case Spawned(_, _) => last.None?
    case GatePassed(_, _) => IsReady(last)
    case GateBlocked(_, _) => IsReady(last)
    case BeatSent(_, _) => last.Some? && last.value.GatePassed?
    case SinkClosed(_) => last.Some? && last.value.GateBlocked?
    case _ => true
  }

  // An ACK of connection c was seen since t last passed the gate
  predicate AckSinceGate(log: seq<Event>, t: nat, c: nat) {
    if |log| == 0 then true
    else if log[|log| - 1].GatePassed? && log[|log| - 1].task == t then false
    else if log[|log| - 1] == AckSeen(c) then true
    else AckSinceGate(log[..|log| - 1], t, c)
  }

  predicate Opens(e: Event, c: nat) {
    match e
    case Connected(d, _) => d == c
    case Spawned(_, d) => d == c
    case AckSeen(d) => d == c
    case _ => false
  }

  predicate Closes(e: Event, c: nat) {
    match e
    case GatePassed(_, d) => d == c
    case GateCleared(d) => d == c
    case _ => false
  }

  // The ACK flag of connection c, judging by the log alone
  predicate GateOpen(log: seq<Event>, c: nat) {
    if |log| == 0 then true
    else if Opens(log[|log| - 1], c) then true
    else if Closes(log[|log| - 1], c) then false
    else GateOpen(log[..|log| - 1], c)
  }

  // The connection task t was spawned for
  function ConnOf(log: seq<Event>, t: nat): Option<nat> {
    if |log| == 0 then None
    else if log[|log| - 1].Spawned? && log[|log| - 1].task == t then Some(log[|log| - 1].conn)
    else ConnOf(log[..|log| - 1], t)
  }

  predicate TaskOf(e: Event) {
    e.Spawned? || e.GatePassed? || e.GateBlocked? || e.BeatSent? || e.SinkClosed?
  }

  // What must hold when e is appended
  predicate Admissible(log: seq<Event>, e: Event) {
    && (TaskOf(e) ==> InOrder(e, LastOf(log, e.task)))
    && (e.GatePassed? ==> AckSinceGate(log, e.task, e.conn) && GateOpen(log, e.conn))
    && (e.GateBlocked? ==> !GateOpen(log, e.conn))
    && (e.GatePassed? || e.GateBlocked? ==> ConnOf(log, e.task) == Some(e.conn))
  }

  ghost predicate Orderly(log: seq<Event>) {
    forall i :: 0 <= i < |log| ==> Admissible(log[..i], log[i])
  }

  // ---------- the log and the state agree ----------

  predicate BeatMatches(b: Beat, last: Option<Event>) {
    match b
    case Ticking => IsReady(last)
    case Gated => last.Some? && last.value.GatePassed?
    case Loaded(_) => last.Some? && last.value.GatePassed?
    case Zombied => last.Some? && last.value.GateBlocked?
  }

  ghost predicate Tracks(g: Gateway) {
    && (forall t: nat :: t in g.tasks ==> BeatMatches(g.tasks[t].beat, LastOf(g.log, t)))
    && (forall t: nat :: t >= g.nextTask ==> LastOf(g.log, t) == None)
    && (forall t: nat :: t in g.tasks ==> ConnOf(g.log, t) == Some(g.tasks[t].conn))
    && (forall t: nat, c: nat ::
          t in g.tasks && g.tasks[t].conn == c < |g.acked| && g.acked[c] ==> AckSinceGate(g.log, t, c))
    && (forall t: nat, c: nat :: t >= g.nextTask ==> AckSinceGate(g.log, t, c))
    && (forall c: nat :: c < |g.acked| ==> (g.acked[c] <==> GateOpen(g.log, c)))
  }

  ghost predicate Sound(g: Gateway) {
    TasksInOrder(g) && Tracks(g) && Orderly(g.log)
  }

  lemma AppendScans(log: seq<Event>, e: Event)
    ensures forall t: nat :: LastOf(log + [e], t) == if Concerns(e, t) then Some(e) else LastOf(log, t)
    ensures forall t: nat, c: nat ::
              AckSinceGate(log + [e], t, c)
                  == (!(e.GatePassed? && e.task == t) && (e == AckSeen(c) || AckSinceGate(log, t, c)))
    ensures forall c: nat :: GateOpen(log + [e], c) == (Opens(e, c) || (!Closes(e, c) && GateOpen(log, c)))
    ensures forall t: nat :: ConnOf(log + [e], t) == if e.Spawned? && e.task == t then Some(e.conn) else ConnOf(log, t)
  {
    assert (log + [e])[..|log|] == log;
  }

  lemma AppendOrderly(log: seq<Event>, e: Event)
    requires Orderly(log) && Admissible(log, e)
    ensures Orderly(log + [e])
  {
    hide Admissible;
    forall i | 0 <= i < |log + [e]| ensures Admissible((log + [e])[..i], (log + [e])[i]) {
      assert (log + [e])[..i] == log[..i];
      assert i == |log| ==> log[..i] == log;
    }
  }

  lemma TaskStepSound(g: Gateway, t: nat, move: TaskMove)
    requires Sound(g) && TaskEnabled(g, t, move)
    ensures Sound(TaskStep(g, t, move))
  {
    hide LastOf, AckSinceGate, GateOpen, ConnOf, Orderly;
    TaskStepKeepsTasks(g, t, move);
    var task := g.tasks[t];
    if move.Tick? {
      var e := if g.acked[task.conn] then GatePassed(t, task.conn) else GateBlocked(t, task.conn);
      AppendScans(g.log, e);
      AppendOrderly(g.log, e);
    } else if move.SendBeat? && move.ok {
      AppendScans(g.log, BeatSent(t, task.beat.sequence));
      AppendOrderly(g.log, BeatSent(t, task.beat.sequence));
    } else if move.CloseSink? {
      AppendScans(g.log, SinkClosed(t));
      AppendOrderly(g.log, SinkClosed(t));
    }
  }

  // Events that say nothing about heartbeat tasks or the ACK flag
  predicate Neutral(e: Event) {
    || e.SequenceSeen? || e.ReadySeen? || e.SessionInvalidated?
    || e.RequestedBeat? || e.ResumeSent? || e.IdentifySent? || e.Slept?
  }

  lemma NeutralSound(g: Gateway, next: Gateway)
    requires Sound(g) && TasksInOrder(next)
    requires next.acked == g.acked && next.nextTask == g.nextTask && (next.tasks == g.tasks || next.tasks == map[])
    requires next.log == g.log
             || (|next.log| > 0 && next.log == g.log + [next.log[|next.log| - 1]] && Neutral(next.log[|next.log| - 1]))
    ensures Sound(next)
  {
    hide LastOf, AckSinceGate, GateOpen, ConnOf, Orderly;
    if next.log != g.log {
      AppendScans(g.log, next.log[|next.log| - 1]);
      AppendOrderly(g.log, next.log[|next.log| - 1]);
    }
  }

  lemma HandleSound(g: Gateway, op: Op)
    requires Sound(g) && g.reader.Handling? && |g.acked| > 0
    ensures Sound(Handle(g, op))
  {
    hide LastOf, AckSinceGate, GateOpen, ConnOf, Orderly;
    HandleKeepsTasks(g, op);
    var next := Handle(g, op);
    if op.Hello? || op.HeartbeatAck? {
      AbortKillsAll(g);
      var e := if op.Hello? then Spawned(g.nextTask, |g.acked| - 1) else AckSeen(|g.acked| - 1);
      AppendScans(g.log, e);
      AppendOrderly(g.log, e);
    } else {
      NeutralSound(g, next);
    }
  }

  lemma ReaderStepSound(g: Gateway, a: Action)
    requires Sound(g) && Enabled(g, a) && !a.HeartbeatTask? && !a.HandleOp?
    ensures Sound(ReaderStep(g, a))
  {
    ReaderStepKeepsTasks(g, a);
    if a == Connect(true) {
      ConnectSound(g);
    } else if a == ClearGate {
      ClearGateSound(g);
    } else {
      AbortKillsAll(g);
      hide Sound, TasksInOrder, ReaderStep;
      QuietStep(g, a);
      NeutralSound(g, ReaderStep(g, a));
    }
  }

  // All other steps of the read loop leave the flags alone and record at most one neutral event.
  lemma QuietStep(g: Gateway, a: Action)
    requires Enabled(g, a) && !a.HeartbeatTask? && !a.HandleOp? && a != Connect(true) && a != ClearGate
    requires Aborted(g).tasks == map[]
    ensures var next := ReaderStep(g, a);
            && next.acked == g.acked && next.nextTask == g.nextTask && (next.tasks == g.tasks || next.tasks == map[])
            && (|| next.log == g.log
                || (&& |next.log| > 0 && next.log == g.log + [next.log[|next.log| - 1]]
                    && Neutral(next.log[|next.log| - 1])))
  {
    if a.Receive? || a.Reply? || a.Sleep? {
      hide Aborted;
    }
  }

  lemma ConnectSound(g: Gateway)
    requires Sound(g) && Enabled(g, Connect(true))
    ensures Sound(ReaderStep(g, Connect(true)))
  {
    hide LastOf, AckSinceGate, GateOpen, ConnOf, Orderly;
    ReaderStepKeepsTasks(g, Connect(true));
    AppendScans(g.log, Connected(|g.acked|, g.connectUrl));
    AppendOrderly(g.log, Connected(|g.acked|, g.connectUrl));
  }

  lemma ClearGateSound(g: Gateway)
    requires Sound(g) && Enabled(g, ClearGate)
    ensures Sound(ReaderStep(g, ClearGate))
  {
    hide LastOf, AckSinceGate, GateOpen, ConnOf, Orderly;
    ReaderStepKeepsTasks(g, ClearGate);
    AppendScans(g.log, GateCleared(|g.acked| - 1));
    AppendOrderly(g.log, GateCleared(|g.acked| - 1));
  }

  lemma StepSound(g: Gateway, a: Action)
    requires Sound(g)
    ensures Sound(Step(g, a))
  {
    hide Sound, Handle, ReaderStep, TaskStep;
    if Enabled(g, a) {
      if a.HeartbeatTask? {
        TaskStepSound(g, a.task, a.move);
      } else if a.HandleOp? {
        HandleSound(g, g.reader.op);
      } else {
        ReaderStepSound(g, a);
      }
    }
  }

  lemma {:induction false} RunIsSound(gatewayUrl: string, actions: seq<Action>)
    ensures Sound(Run(gatewayUrl, actions))
  {
    if |actions| > 0 {
      hide Sound, Step;
      RunIsSound(gatewayUrl, actions[..|actions| - 1]);
      StepSound(Run(gatewayUrl, actions[..|actions| - 1]), actions[|actions| - 1]);
    }
  }

  // ---------- what the log then says, without the state machine ----------

  lemma {:induction false} LastOfIsLast(log: seq<Event>, t: nat)
    ensures var last := LastOf(log, t);
            if last.None? then forall i :: 0 <= i < |log| ==> !Concerns(log[i], t)
            else exists k :: 0 <= k < |log| && log[k] == last.value && Concerns(log[k], t)
                             && forall i :: k < i < |log| ==> !Concerns(log[i], t)
  {
    if |log| > 0 && !Concerns(log[|log| - 1], t) {
      LastOfIsLast(log[..|log| - 1], t);
    }
  }

  lemma {:induction false} AckFollowsGate(log: seq<Event>, t: nat, c: nat, k: nat)
    requires AckSinceGate(log, t, c)
    requires k < |log| && log[k].GatePassed? && log[k].task == t
    ensures exists i :: k < i < |log| && log[i] == AckSeen(c)
  {
    if log[|log| - 1] != AckSeen(c) {
      AckFollowsGate(log[..|log| - 1], t, c, k);
      var i :| k < i < |log| - 1 && log[..|log| - 1][i] == AckSeen(c);
      assert log[i] == AckSeen(c);
    }
  }

  // The gate a heartbeat passed: nothing else of its task lies between the two.
  ghost predicate GateOf(log: seq<Event>, gate: nat, beat: nat) {
    && gate < beat < |log| && log[gate].GatePassed? && log[beat].BeatSent? && log[gate].task == log[beat].task
    && forall i :: gate < i < beat ==> !Concerns(log[i], log[beat].task)
  }

  lemma BeatHasGate(log: seq<Event>, beat: nat) returns (gate: nat)
    requires Orderly(log) && beat < |log| && log[beat].BeatSent?
    ensures GateOf(log, gate, beat)
  {
    hide LastOf;
    var t := log[beat].task;
    assert Admissible(log[..beat], log[beat]);
    LastOfIsLast(log[..beat], t);
    gate :| 0 <= gate < beat && log[..beat][gate] == LastOf(log[..beat], t).value && Concerns(log[..beat][gate], t)
            && forall i :: gate < i < beat ==> !Concerns(log[..beat][i], t);
    assert forall i :: gate < i < beat ==> log[..beat][i] == log[i];
  }

  lemma {:induction false} ConnHasEvent(log: seq<Event>, t: nat)
    ensures ConnOf(log, t).Some? ==> LastOf(log, t).Some?
  {
    if |log| > 0 && !Concerns(log[|log| - 1], t) {
      ConnHasEvent(log[..|log| - 1], t);
    }
  }

  // A task keeps the connection it was spawned for.
  lemma {:induction false} ConnStays(log: seq<Event>, t: nat, k: nat)
    requires Orderly(log) && k <= |log| && ConnOf(log[..k], t).Some?
    ensures ConnOf(log, t) == ConnOf(log[..k], t)
  {
    if k == |log| {
      assert log[..k] == log;
    } else {
      hide LastOf, AckSinceGate, GateOpen;
      var before := log[..|log| - 1];
      assert before[..k] == log[..k];
      assert Orderly(before) by {
        assert forall i :: 0 <= i < |before| ==> before[..i] == log[..i] && before[i] == log[i];
      }
      ConnStays(before, t, k);
      ConnHasEvent(before, t);
      assert Admissible(log[..|log| - 1], log[|log| - 1]);
    }
  }

  lemma GatesHaveAck(log: seq<Event>, i: nat, j: nat) returns (gate: nat, gate': nat, ack: nat)
    requires Orderly(log) && i < j < |log|
    requires log[i].BeatSent? && log[j].BeatSent? && log[i].task == log[j].task
    ensures GateOf(log, gate, i) && GateOf(log, gate', j)
    ensures i < gate' && gate < ack < gate'
    ensures ConnOf(log, log[i].task).Some? && log[ack] == AckSeen(ConnOf(log, log[i].task).value)
  {
    hide LastOf, AckSinceGate, GateOpen, ConnOf;
    gate := BeatHasGate(log, i);
    gate' := BeatHasGate(log, j);
    assert Concerns(log[i], log[j].task);
    assert Admissible(log[..gate'], log[gate']);
    var c := log[gate'].conn;
    ConnStays(log, log[j].task, gate');
    AckFollowsGate(log[..gate'], log[j].task, c, gate);
    ack :| gate < ack < gate' && log[..gate'][ack] == AckSeen(c);
  }

  // Between the gates of two heartbeats of one task an ACK of its connection was seen.
  lemma AckBetweenGates(gatewayUrl: string, actions: seq<Action>, i: nat, j: nat)
      returns (gate: nat, gate': nat, ack: nat)
    requires var log := Run(gatewayUrl, actions).log;
             i < j < |log| && log[i].BeatSent? && log[j].BeatSent? && log[i].task == log[j].task
    ensures var log := Run(gatewayUrl, actions).log;
            && GateOf(log, gate, i) && GateOf(log, gate', j)
            && i < gate' && gate < ack < gate'
            && ConnOf(log, log[i].task).Some? && log[ack] == AckSeen(ConnOf(log, log[i].task).value)
  {
    hide Run, GateOf, Tracks, TasksInOrder, ConnOf;
    RunIsSound(gatewayUrl, actions);
    gate, gate', ack := GatesHaveAck(Run(gatewayUrl, actions).log, i, j);
  }

  // Two heartbeats of one task have an ACK of its connection between them, unless
  // one overtook the first of them between its gate and its send.
  lemma AckBetweenBeats(gatewayUrl: string, actions: seq<Action>, i: nat, j: nat)
    requires var log := Run(gatewayUrl, actions).log;
             i < j < |log| && log[i].BeatSent? && log[j].BeatSent? && log[i].task == log[j].task
    ensures var log := Run(gatewayUrl, actions).log;
            var conn := ConnOf(log, log[i].task);
            && conn.Some?
            && (|| (exists k :: i < k < j && log[k] == AckSeen(conn.value))
                || (exists gate: nat, k :: GateOf(log, gate, i) && gate < k < i && log[k] == AckSeen(conn.value)))
  {
    hide Run, ConnOf;
    var gate, gate', ack := AckBetweenGates(gatewayUrl, actions, i, j);
    if ack < i {
      assert GateOf(Run(gatewayUrl, actions).log, gate, i) && gate < ack < i;
    }
  }

  // From one heartbeat to the next but one there always is an ACK of the connection.
  lemma AckEveryTwoBeats(gatewayUrl: string, actions: seq<Action>, i: nat, j: nat, l: nat)
    requires var log := Run(gatewayUrl, actions).log;
             && i < j < l < |log| && log[i].BeatSent? && log[j].BeatSent? && log[l].BeatSent?
             && log[i].task == log[j].task == log[l].task
    ensures var log := Run(gatewayUrl, actions).log;
            var conn := ConnOf(log, log[i].task);
            conn.Some? && exists k :: i < k < l && log[k] == AckSeen(conn.value)
  {
    hide Run, ConnOf;
    var gate, gate', ack := AckBetweenGates(gatewayUrl, actions, j, l);
    assert i < gate by {
      assert Concerns(Run(gatewayUrl, actions).log[i], Run(gatewayUrl, actions).log[j].task);
    }
  }

  lemma {:induction false} OpenGateWasOpened(log: seq<Event>, c: nat, k: nat)
    requires GateOpen(log, c) && k < |log| && Closes(log[k], c)
    ensures exists l :: k < l < |log| && Opens(log[l], c)
  {
    if !Opens(log[|log| - 1], c) {
      OpenGateWasOpened(log[..|log| - 1], c, k);
      var l :| k < l < |log| - 1 && Opens(log[..|log| - 1][l], c);
      assert Opens(log[l], c);
    }
  }

  lemma {:induction false} ShutGateWasShut(log: seq<Event>, c: nat) returns (k: nat)
    requires !GateOpen(log, c)
    ensures k < |log| && Closes(log[k], c) && forall l :: k < l < |log| ==> !Opens(log[l], c)
  {
    if Closes(log[|log| - 1], c) {
      k := |log| - 1;
    } else {
      k := ShutGateWasShut(log[..|log| - 1], c);
    }
  }

  // A tick goes ahead exactly when every clearing of the flag so far (by a tick
  // or after a requested heartbeat) was followed by an ACK, a HELLO or a new connection.
  lemma TickVerdict(gatewayUrl: string, actions: seq<Action>, i: nat)
    requires var log := Run(gatewayUrl, actions).log;
             i < |log| && (log[i].GatePassed? || log[i].GateBlocked?)
    ensures var log := Run(gatewayUrl, actions).log;
            var c := log[i].conn;
            log[i].GatePassed? <==>
            forall k :: 0 <= k < i && Closes(log[k], c) ==> exists l :: k < l < i && Opens(log[l], c)
  {
    hide LastOf, AckSinceGate, GateOpen, Run, Tracks, TasksInOrder;
    var log := Run(gatewayUrl, actions).log;
    RunIsSound(gatewayUrl, actions);
    assert Admissible(log[..i], log[i]);
    var c := log[i].conn;
    if log[i].GatePassed? {
      forall k | 0 <= k < i && Closes(log[k], c) ensures exists l :: k < l < i && Opens(log[l], c) {
        OpenGateWasOpened(log[..i], c, k);
        var l :| k < l < i && Opens(log[..i][l], c);
        assert Opens(log[l], c);
      }
    } else {
      var k := ShutGateWasShut(log[..i], c);
      assert Closes(log[k], c);
      assert forall l :: k < l < i ==> log[..i][l] == log[l];
    }
  }

  // A blocked task never beats or passes the gate again; all it can do is close the sink.
  lemma BlockedForGood(gatewayUrl: string, actions: seq<Action>, i: nat, j: nat)
    requires var log := Run(gatewayUrl, actions).log;
             i < j < |log| && log[i].GateBlocked? && Concerns(log[j], log[i].task)
    ensures Run(gatewayUrl, actions).log[j].SinkClosed?
  {
    hide Run, LastOf, AckSinceGate, GateOpen, Tracks, TasksInOrder;
    RunIsSound(gatewayUrl, actions);
    var log := Run(gatewayUrl, actions).log;
    assert Admissible(log[..j], log[j]);
    BlockedStays(log, i, j);
  }

  lemma {:induction false} BlockedStays(log: seq<Event>, i: nat, j: nat)
    requires Orderly(log) && i < j <= |log| && log[i].GateBlocked?
    ensures var last := LastOf(log[..j], log[i].task);
            last.Some? && (last.value.GateBlocked? || last.value.SinkClosed?)
  {
    hide AckSinceGate, GateOpen;
    assert log[..j][..j - 1] == log[..j - 1];
    if i < j - 1 {
      BlockedStays(log, i, j - 1);
      assert Admissible(log[..j - 1], log[j - 1]);
    }
  }

  // ---------- when an ACK before the next heartbeat is certain ----------

  ghost predicate AckAfter(log: seq<Event>, beat: nat, c: nat) {
    exists k :: beat < k < |log| && log[k] == AckSeen(c)
  }

  // Every heartbeat of t after the one at position beat comes after an ACK that
  // was seen since that one.
  ghost predicate AckBeforeNext(log: seq<Event>, beat: nat, t: nat, c: nat) {
    forall j :: beat < j < |log| && log[j].BeatSent? && log[j].task == t ==> AckAfter(log[..j], beat, c)
  }

  // The flag was clear when the heartbeat went out: its task cannot pass the gate
  // again before an ACK.
  ghost predicate Held(g: Gateway, beat: nat, t: nat, c: nat) {
    && beat < |g.log| && t < g.nextTask && c < |g.acked|
    && AckBeforeNext(g.log, beat, t, c)
    && (|| AckAfter(g.log, beat, c)
        || t !in g.tasks
        || (!g.acked[c] && g.tasks[t].conn == c && (g.tasks[t].beat.Ticking? || g.tasks[t].beat.Zombied?)))
  }

  lemma AppendAck(log: seq<Event>, e: Event, beat: nat, t: nat, c: nat)
    requires beat < |log|
    ensures AckAfter(log, beat, c) || e == AckSeen(c) ==> AckAfter(log + [e], beat, c)
    ensures AckBeforeNext(log, beat, t, c) && (e.BeatSent? && e.task == t ==> AckAfter(log, beat, c))
            ==> AckBeforeNext(log + [e], beat, t, c)
  {
    var longer := log + [e];
    assert longer[|log|] == e && forall k :: 0 <= k < |log| ==> longer[k] == log[k];
    if AckAfter(log, beat, c) {
      var k :| beat < k < |log| && log[k] == AckSeen(c);
      assert longer[k] == AckSeen(c);
    }
    assert forall j :: 0 <= j < |log| ==> longer[..j] == log[..j];
    assert longer[..|log|] == log;
  }

  lemma TaskStepHeld(g: Gateway, u: nat, move: TaskMove, beat: nat, t: nat, c: nat)
    requires TasksInOrder(g) && TaskEnabled(g, u, move) && Held(g, beat, t, c)
    ensures Held(TaskStep(g, u, move), beat, t, c)
  {
    hide AckAfter, AckBeforeNext;
    var next := TaskStep(g, u, move);
    if next.log != g.log {
      AppendAck(g.log, next.log[|g.log|], beat, t, c);
    }
  }

  lemma HandleHeld(g: Gateway, op: Op, beat: nat, t: nat, c: nat)
    requires TasksInOrder(g) && g.reader.Handling? && |g.acked| > 0 && Held(g, beat, t, c)
    ensures Held(Handle(g, op), beat, t, c)
  {
    hide AckAfter, AckBeforeNext;
    AbortKillsAll(g);
    var next := Handle(g, op);
    if next.log != g.log {
      AppendAck(g.log, next.log[|g.log|], beat, t, c);
    }
  }

  lemma ReaderStepHeld(g: Gateway, a: Action, beat: nat, t: nat, c: nat)
    requires TasksInOrder(g) && Enabled(g, a) && !a.HeartbeatTask? && !a.HandleOp? && Held(g, beat, t, c)
    ensures Held(ReaderStep(g, a), beat, t, c)
  {
    hide AckAfter, AckBeforeNext, ReaderStep, Held;
    AbortKillsAll(g);
    if a == Connect(true) {
      ConnectHeld(g, beat, t, c);
    } else if a == ClearGate {
      ClearGateHeld(g, beat, t, c);
    } else {
      hide TasksInOrder;
      QuietStep(g, a);
      QuietHeld(g, ReaderStep(g, a), beat, t, c);
    }
  }

  lemma QuietHeld(g: Gateway, next: Gateway, beat: nat, t: nat, c: nat)
    requires Held(g, beat, t, c)
    requires next.acked == g.acked && next.nextTask == g.nextTask && (next.tasks == g.tasks || next.tasks == map[])
    requires || next.log == g.log
             || (&& |next.log| > 0 && next.log == g.log + [next.log[|next.log| - 1]]
                 && Neutral(next.log[|next.log| - 1]))
    ensures Held(next, beat, t, c)
  {
    hide AckAfter, AckBeforeNext;
    if next.log != g.log {
      AppendAck(g.log, next.log[|next.log| - 1], beat, t, c);
    }
  }

  lemma ConnectHeld(g: Gateway, beat: nat, t: nat, c: nat)
    requires Enabled(g, Connect(true)) && Held(g, beat, t, c)
    ensures Held(ReaderStep(g, Connect(true)), beat, t, c)
  {
    hide AckAfter, AckBeforeNext;
    AppendAck(g.log, Connected(|g.acked|, g.connectUrl), beat, t, c);
  }

  lemma ClearGateHeld(g: Gateway, beat: nat, t: nat, c: nat)
    requires Enabled(g, ClearGate) && Held(g, beat, t, c)
    ensures Held(ReaderStep(g, ClearGate), beat, t, c)
  {
    hide AckAfter, AckBeforeNext;
    AppendAck(g.log, GateCleared(|g.acked| - 1), beat, t, c);
  }

  lemma StepHeld(g: Gateway, a: Action, beat: nat, t: nat, c: nat)
    requires TasksInOrder(g) && Held(g, beat, t, c)
    ensures Held(Step(g, a), beat, t, c)
  {
    hide Held, TasksInOrder, Handle, ReaderStep, TaskStep;
    if Enabled(g, a) {
      if a.HeartbeatTask? {
        TaskStepHeld(g, a.task, a.move, beat, t, c);
      } else if a.HandleOp? {
        HandleHeld(g, g.reader.op, beat, t, c);
      } else {
        ReaderStepHeld(g, a, beat, t, c);
      }
    }
  }

  lemma {:induction false} RunHeld(gatewayUrl: string, actions: seq<Action>, more: seq<Action>,
      beat: nat, t: nat, c: nat)
    requires Held(Run(gatewayUrl, actions), beat, t, c)
    ensures Held(Run(gatewayUrl, actions + more), beat, t, c)
  {
    hide Held, Step, TasksInOrder;
    if |more| == 0 {
      assert actions + more == actions;
    } else {
      var before, a := more[..|more| - 1], more[|more| - 1];
      RunHeld(gatewayUrl, actions, before, beat, t, c);
      RunKeepsTasks(gatewayUrl, actions + before);
      StepHeld(Run(gatewayUrl, actions + before), a, beat, t, c);
      assert actions + more == (actions + before) + [a];
      RunStep(gatewayUrl, actions + before, a);
    }
  }

  // However the run goes on after task t has sent the heartbeat it is about to send,
  // its next one comes after an ACK of its connection.
  ghost predicate AckIsCertain(gatewayUrl: string, actions: seq<Action>, t: nat, c: nat) {
    forall more: seq<Action> ::
      AckBeforeNext(Run(gatewayUrl, actions + [HeartbeatTask(t, SendBeat(true))] + more).log,
                    |Run(gatewayUrl, actions).log|, t, c)
  }

  // An ACK between a heartbeat and the next one of its task is certain exactly when
  // the flag is clear as the heartbeat goes out.
  lemma AckCertainIff(gatewayUrl: string, actions: seq<Action>, t: nat)
    requires TaskEnabled(Run(gatewayUrl, actions), t, SendBeat(true))
    ensures var g := Run(gatewayUrl, actions);
            AckIsCertain(gatewayUrl, actions, t, g.tasks[t].conn) <==> !g.acked[g.tasks[t].conn]
  {
    hide Run;
    var g := Run(gatewayUrl, actions);
    var c := g.tasks[t].conn;
    if g.acked[c] {
      var more := BeatAgain(gatewayUrl, actions, t);
    } else {
      SendHolds(gatewayUrl, actions, t);
      forall more: seq<Action>
        ensures AckBeforeNext(Run(gatewayUrl, actions + [HeartbeatTask(t, SendBeat(true))] + more).log, |g.log|, t, c)
      {
        RunHeld(gatewayUrl, actions + [HeartbeatTask(t, SendBeat(true))], more, |g.log|, t, c);
      }
    }
  }

  lemma SendHolds(gatewayUrl: string, actions: seq<Action>, t: nat)
    requires var g := Run(gatewayUrl, actions);
             TaskEnabled(g, t, SendBeat(true)) && !g.acked[g.tasks[t].conn]
    ensures var g := Run(gatewayUrl, actions);
            Held(Run(gatewayUrl, actions + [HeartbeatTask(t, SendBeat(true))]), |g.log|, t, g.tasks[t].conn)
  {
    hide Run, AckAfter, AckBeforeNext;
    RunKeepsTasks(gatewayUrl, actions);
    RunStep(gatewayUrl, actions, HeartbeatTask(t, SendBeat(true)));
    var g := Run(gatewayUrl, actions);
    NoneSince(g.log, BeatSent(t, g.tasks[t].beat.sequence), t, g.tasks[t].conn);
  }

  lemma NoneSince(log: seq<Event>, e: Event, t: nat, c: nat)
    ensures AckBeforeNext(log + [e], |log|, t, c)
  {
  }

  // With the flag set the task may tick, pass the gate and send at once.
  lemma BeatAgain(gatewayUrl: string, actions: seq<Action>, t: nat) returns (more: seq<Action>)
    requires var g := Run(gatewayUrl, actions);
             TaskEnabled(g, t, SendBeat(true)) && g.acked[g.tasks[t].conn]
    ensures var g := Run(gatewayUrl, actions);
            !AckBeforeNext(Run(gatewayUrl, actions + [HeartbeatTask(t, SendBeat(true))] + more).log,
                           |g.log|, t, g.tasks[t].conn)
  {
    hide Run;
    var g := Run(gatewayUrl, actions);
    var c := g.tasks[t].conn;
    var sent := actions + [HeartbeatTask(t, SendBeat(true))];
    RunStep(gatewayUrl, actions, HeartbeatTask(t, SendBeat(true)));
    RunStep(gatewayUrl, sent, HeartbeatTask(t, Tick));
    var ticked := sent + [HeartbeatTask(t, Tick)];
    RunStep(gatewayUrl, ticked, HeartbeatTask(t, LoadSequence));
    var loaded := ticked + [HeartbeatTask(t, LoadSequence)];
    RunStep(gatewayUrl, loaded, HeartbeatTask(t, SendBeat(true)));
    more := [HeartbeatTask(t, Tick), HeartbeatTask(t, LoadSequence), HeartbeatTask(t, SendBeat(true))];
    assert sent + more == loaded + [HeartbeatTask(t, SendBeat(true))];
    var log := Run(gatewayUrl, sent + more).log;
    assert log == g.log + [log[|g.log|], GatePassed(t, c), BeatSent(t, g.sequence)];
    assert !AckAfter(log[..|g.log| + 2], |g.log|, c);
  }

  // ---------- two races the flag does not rule out ----------

  lemma RunStep(gatewayUrl: string, actions: seq<Action>, a: Action)
    ensures Run(gatewayUrl, actions + [a]) == Step(Run(gatewayUrl, actions), a)
  {
    assert (actions + [a])[..|actions|] == actions;
  }

  // A fresh connection that has been greeted: its heartbeat task is waiting for the ticker.
  function Greeted(url: string): Gateway {
    Initial(url).(reader := Waiting, acked := [true], handle := Some(0), tasks := map[0 := Task(0, Ticking)],
                  nextTask := 1, log := [Connected(0, url), Spawned(0, 0), IdentifySent])
  }

  lemma RunToGreeted(url: string) returns (actions: seq<Action>)
    ensures Run(url, actions) == Greeted(url)
  {
    actions := [];
    RunStep(url, actions, Connect(true));
    actions := actions + [Connect(true)];
    assert Run(url, actions) == Initial(url).(reader := Waiting, acked := [true], log := [Connected(0, url)]);
    RunStep(url, actions, Receive(None, Hello));
    actions := actions + [Receive(None, Hello)];
    RunStep(url, actions, HandleOp);
    actions := actions + [HandleOp];
    assert Run(url, actions) == Greeted(url).(reader := Replying, log := [Connected(0, url), Spawned(0, 0)]);
    RunStep(url, actions, Reply(true));
    actions := actions + [Reply(true)];
  }

  // A requested heartbeat is sent; before the flag is cleared a tick passes the gate.
  lemma RunToOvertaken(url: string) returns (actions: seq<Action>)
    ensures Run(url, actions) == Overtaken(url)
  {
    hide Run;
    actions := RunToGreeted(url);
    RunStep(url, actions, Receive(None, HeartbeatRequest));
    actions := actions + [Receive(None, HeartbeatRequest)];
    RunStep(url, actions, HandleOp);
    actions := actions + [HandleOp];
    RunStep(url, actions, HeartbeatTask(0, Tick));
    actions := actions + [HeartbeatTask(0, Tick)];
    RunStep(url, actions, ClearGate);
    actions := actions + [ClearGate];
  }

  function Overtaken(url: string): Gateway {
    var g := Greeted(url);
    g.(acked := [false], tasks := map[0 := Task(0, Gated)],
        log := g.log + [RequestedBeat(None), GatePassed(0, 0), GateCleared(0)])
  }

  // The ACK of a server-requested heartbeat that arrives between the gate and the
  // send lets two heartbeats go out with no ACK between them.
  lemma LateAckRace(url: string) returns (actions: seq<Action>, r: nat, i: nat, j: nat)
    ensures var log := Run(url, actions).log;
            && r < i < j < |log| && log[r] == RequestedBeat(None)
            && log[i] == BeatSent(0, None) && log[j] == BeatSent(0, None)
            && (forall k :: i < k < j ==> !log[k].AckSeen?)
            && (forall k, l :: 0 <= k < |log| && 0 <= l < |log| && log[k].AckSeen? && log[l].AckSeen? ==> k == l > r)
  {
    hide Run;
    actions := RunToOvertaken(url);
    var g := Overtaken(url);
    RunStep(url, actions, Receive(None, HeartbeatAck));
    actions := actions + [Receive(None, HeartbeatAck)];
    RunStep(url, actions, HandleOp);
    actions := actions + [HandleOp];
    assert Run(url, actions) == g.(acked := [true], log := g.log + [AckSeen(0)]);
    actions := BeatNow(url, actions);
    RunStep(url, actions, HeartbeatTask(0, Tick));
    actions := actions + [HeartbeatTask(0, Tick)];
    actions := BeatNow(url, actions);
    r, i, j := 3, |g.log| + 1, |g.log| + 3;
    assert Run(url, actions).log == g.log + [AckSeen(0), BeatSent(0, None), GatePassed(0, 0), BeatSent(0, None)];
  }

  lemma BeatNow(url: string, actions: seq<Action>) returns (longer: seq<Action>)
    requires TaskEnabled(Run(url, actions), 0, LoadSequence) && Run(url, actions).sequence == None
    ensures var g := Run(url, actions);
            Run(url, longer) == g.(tasks := g.tasks[0 := g.tasks[0].(beat := Ticking)],
                                log := g.log + [BeatSent(0, None)])
  {
    hide Run;
    RunStep(url, actions, HeartbeatTask(0, LoadSequence));
    longer := actions + [HeartbeatTask(0, LoadSequence)];
    RunStep(url, longer, HeartbeatTask(0, SendBeat(true)));
    longer := longer + [HeartbeatTask(0, SendBeat(true))];
  }

  // A tick between a requested heartbeat and the clearing of the flag goes
  // ahead although no ACK was seen since that heartbeat.
  lemma RequestedBeatRace(url: string) returns (actions: seq<Action>, i: nat, j: nat)
    ensures var log := Run(url, actions).log;
            && i < j < |log| && log[i] == RequestedBeat(None) && log[j] == GatePassed(0, 0)
            && forall k :: i < k < j ==> !log[k].AckSeen?
  {
    hide Run;
    actions := RunToGreeted(url);
    RunStep(url, actions, Receive(None, HeartbeatRequest));
    actions := actions + [Receive(None, HeartbeatRequest)];
    RunStep(url, actions, HandleOp);
    actions := actions + [HandleOp];
    i := |Run(url, actions).log| - 1;
    RunStep(url, actions, HeartbeatTask(0, Tick));
    actions := actions + [HeartbeatTask(0, Tick)];
    j := |Run(url, actions).log| - 1;
  }

  // The heartbeat task outlives a read loop whose messages nobody takes: its
  // next tick is still to come after the loop has returned.
  lemma ConsumerGoneLeavesTask(url: string) returns (actions: seq<Action>)
    ensures var g := Run(url, actions);
            g.reader.Stopped? && TaskEnabled(g, 0, Tick)
  {
    hide Run;
    actions := RunToGreeted(url);
    RunStep(url, actions, Receive(None, Dispatch));
    actions := actions + [Receive(None, Dispatch)];
    RunStep(url, actions, ConsumerGone);
    actions := actions + [ConsumerGone];
  }
}
