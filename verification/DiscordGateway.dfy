/** The Discord gateway as a step system: the read loop and the periodic
    heartbeat task run concurrently and share the ACK flag, the sequence number
    and the sink. One step is what happens between two awaits. */
module DiscordGateway {
  import opened Wrappers

  const INITIAL_BACKOFF: nat := 1
  const MAX_BACKOFF: nat := 60

  // The payloads the read loop tells apart
  datatype Op =
    | Hello
    | Ready(session: string, resumeUrl: string)
    | Dispatch
    | HeartbeatRequest
    | HeartbeatAck
    | Reconnect
    | InvalidSession(resumable: bool)
    | Unknown

  // Where the read loop stands
  datatype Reader =
    | Disconnected          // top of the outer loop
    | Waiting               // in the select of the inner loop
    | Handling(op: Op)      // sequence number stored, payload not yet acted on
    | Replying              // heartbeat task spawned, RESUME or IDENTIFY not yet sent
    | Clearing              // requested heartbeat sent, ACK flag not yet cleared
    | Leaving               // out of the inner loop, heartbeat task not yet aborted
    | BackingOff            // about to sleep
    | Stopped

  // Where a heartbeat task stands
  datatype Beat =
    | Ticking                       // waiting for the ticker
    | Gated                         // swapped the ACK flag and found it set
    | Loaded(sequence: Option<nat>) // read the sequence number to send
    | Zombied                       // found the flag clear, about to close the sink

  datatype Task = Task(conn: nat, beat: Beat)

  // What an outside observer of the run could write down
  datatype Event =
    | Connected(conn: nat, url: string)
    | SequenceSeen(sequence: nat)
    | ReadySeen(session: string, resumeUrl: string)
    | SessionInvalidated
    | AckSeen(conn: nat)
    | Spawned(task: nat, conn: nat)
    | GatePassed(task: nat, conn: nat)
    | GateBlocked(task: nat, conn: nat)
    | BeatSent(task: nat, carried: Option<nat>)
    | SinkClosed(task: nat)
    | RequestedBeat(carried: Option<nat>)
    | GateCleared(conn: nat)
    | ResumeSent(session: string, sequence: nat)
    | IdentifySent
    | Slept(seconds: nat)

  datatype Gateway = Gateway(
    reader: Reader,
    shutdown: bool,
    acked: seq<bool>,             // the ACK flag of each connection so far
    handle: Option<nat>,
    tasks: map<nat, Task>,        // the live heartbeat tasks
    nextTask: nat,
    sequence: Option<nat>,
    session: Option<string>,
    resumeUrl: Option<string>,
    connectUrl: string,
    backoff: nat,
    log: seq<Event>)

  datatype TaskMove = Tick | LoadSequence | SendBeat(ok: bool) | CloseSink | NoticeShutdown

  datatype Action =
    | SignalShutdown
    | Connect(ok: bool)
    | Receive(s: Option<nat>, op: Op)
    | StreamEnds
    | SeeShutdown
    | HandleOp
    | ConsumerGone
    | Reply(ok: bool)
    | ClearGate
    | TearDown
    | Sleep
    | HeartbeatTask(task: nat, move: TaskMove)

  function Initial(gatewayUrl: string): Gateway {
    Gateway(Disconnected, false, [], None, map[], 0, None, None, None, gatewayUrl, INITIAL_BACKOFF, [])
  }

  function Doubled(backoff: nat): nat {
    if backoff * 2 <= MAX_BACKOFF then backoff * 2 else MAX_BACKOFF
  }

  function ResumeAddress(url: string): string {
    url + "/?v=10&encoding=json"
  }

  predicate TaskEnabled(g: Gateway, t: nat, move: TaskMove) {
    && t in g.tasks && g.tasks[t].conn < |g.acked|
    && match move
       case Tick => g.tasks[t].beat.Ticking?
       case LoadSequence => g.tasks[t].beat.Gated?
       case SendBeat(_) => g.tasks[t].beat.Loaded?
       case CloseSink => g.tasks[t].beat.Zombied?
       case NoticeShutdown => g.tasks[t].beat.Ticking? && g.shutdown
  }

  predicate Enabled(g: Gateway, a: Action) {
    match a
    case SignalShutdown => true
    case Connect(_) => g.reader.Disconnected? && !g.shutdown
    case Receive(_, _) => g.reader.Waiting?
    case StreamEnds => g.reader.Waiting?
    case SeeShutdown => (g.reader.Waiting? || g.reader.Disconnected?) && g.shutdown
    case HandleOp => g.reader.Handling? && |g.acked| > 0
    case ConsumerGone => g.reader == Handling(Dispatch)
    case Reply(_) => g.reader.Replying?
    case ClearGate => g.reader.Clearing? && |g.acked| > 0
    case TearDown => g.reader.Leaving?
    case Sleep => g.reader.BackingOff?
    case HeartbeatTask(t, move) => TaskEnabled(g, t, move)
  }

  function Record(g: Gateway, e: Event): Gateway {
    g.(log := g.log + [e])
  }

  // JoinHandle::abort on the handle, if there is one
  function Aborted(g: Gateway): Gateway {
    match g.handle
    case None => g
    case Some(t) => g.(tasks := g.tasks - {t}, handle := None)
  }

  // The match on the opcode
  function Handle(g: Gateway, op: Op): Gateway
    requires |g.acked| > 0
  {
    var conn := |g.acked| - 1;
    match op
    case Hello =>
      var quiet := Aborted(g);
      Record(quiet.(acked := quiet.acked[conn := true],
                    tasks := quiet.tasks[g.nextTask := Task(conn, Ticking)],
                    handle := Some(g.nextTask),
                    nextTask := g.nextTask + 1,
                    reader := Replying),
             Spawned(g.nextTask, conn))
    case Ready(sid, url) =>
      Record(g.(session := Some(sid), resumeUrl := if url == "" then g.resumeUrl else Some(url), reader := Waiting),
             ReadySeen(sid, url))
    case HeartbeatRequest => Record(g.(reader := Clearing), RequestedBeat(g.sequence))
    case HeartbeatAck => Record(g.(acked := g.acked[conn := true], reader := Waiting), AckSeen(conn))
    case Reconnect => g.(reader := Leaving)
    case InvalidSession(resumable) =>
      if resumable then g.(reader := Leaving)
      else Record(g.(session := None, sequence := None, reader := Leaving), SessionInvalidated)
    case Dispatch => g.(reader := Waiting)
    case Unknown => g.(reader := Waiting)
  }

  function ReaderStep(g: Gateway, a: Action): Gateway
    requires Enabled(g, a) && !a.HeartbeatTask? && !a.HandleOp?
  {
    match a
    case SignalShutdown => g.(shutdown := true)
    case Connect(ok) =>
      if ok then
        Record(g.(reader := Waiting, acked := g.acked + [true], handle := None, backoff := INITIAL_BACKOFF),
               Connected(|g.acked|, g.connectUrl))
      else g.(reader := BackingOff)
    case Receive(s, op) =>
      if s.Some? then Record(g.(reader := Handling(op), sequence := s), SequenceSeen(s.value))
      else g.(reader := Handling(op))
    case StreamEnds => g.(reader := Leaving)
    case SeeShutdown => Aborted(g).(reader := Stopped)
    case ConsumerGone => g.(reader := Stopped)
    case Reply(ok) =>
      if !ok then g.(reader := Leaving)
      else if g.session.Some? && g.sequence.Some? then
        Record(g.(reader := Waiting), ResumeSent(g.session.value, g.sequence.value))
      else Record(g.(reader := Waiting), IdentifySent)
    case ClearGate =>
      Record(g.(acked := g.acked[|g.acked| - 1 := false], reader := Waiting), GateCleared(|g.acked| - 1))
    case TearDown =>
      var quiet := Aborted(g);
      if g.shutdown then quiet.(reader := Stopped)
      else quiet.(reader := BackingOff,
                  connectUrl := if g.resumeUrl.Some? then ResumeAddress(g.resumeUrl.value) else g.connectUrl)
    case Sleep => Record(g.(reader := Disconnected, backoff := Doubled(g.backoff)), Slept(g.backoff))
  }

  // One step of a heartbeat task; swap, read and send are separate steps
  function TaskStep(g: Gateway, t: nat, move: TaskMove): Gateway
    requires TaskEnabled(g, t, move)
  {
    var task := g.tasks[t];
    match move
    case Tick =>
      if g.acked[task.conn] then
        Record(g.(acked := g.acked[task.conn := false], tasks := g.tasks[t := task.(beat := Gated)]),
            GatePassed(t, task.conn))
      else Record(g.(tasks := g.tasks[t := task.(beat := Zombied)]), GateBlocked(t, task.conn))
    case LoadSequence => g.(tasks := g.tasks[t := task.(beat := Loaded(g.sequence))])
    case SendBeat(ok) =>
      if ok then Record(g.(tasks := g.tasks[t := task.(beat := Ticking)]), BeatSent(t, task.beat.sequence))
      else g.(tasks := g.tasks - {t})
    case CloseSink => Record(g.(tasks := g.tasks - {t}), SinkClosed(t))
    case NoticeShutdown => g.(tasks := g.tasks - {t})
  }

  function Step(g: Gateway, a: Action): Gateway {
    if !Enabled(g, a) then g
    else if a.HeartbeatTask? then TaskStep(g, a.task, a.move)
    else if a.HandleOp? then Handle(g, g.reader.op)
    else ReaderStep(g, a)
  }

  function Run(gatewayUrl: string, actions: seq<Action>): Gateway {
    if |actions| == 0 then Initial(gatewayUrl)
    else Step(Run(gatewayUrl, actions[..|actions| - 1]), actions[|actions| - 1])
  }

  // ---------- who is alive ----------

  // The read loop has left the previous connection behind.
  predicate BetweenConnections(r: Reader) {
    r.Disconnected? || r.BackingOff?
  }

  ghost predicate TasksInOrder(g: Gateway) {
    && (forall t :: t in g.tasks ==> t < g.nextTask)
    && (forall t :: t in g.tasks ==> g.tasks[t].conn == |g.acked| - 1)
    && (forall t :: t in g.tasks ==> g.handle == Some(t))
    && (BetweenConnections(g.reader) ==> g.tasks == map[])
    && (!BetweenConnections(g.reader) && !g.reader.Stopped? ==> |g.acked| > 0)
  }

  lemma AbortKillsAll(g: Gateway)
    requires TasksInOrder(g)
    ensures Aborted(g).tasks == map[]
  {
    if g.handle.Some? {
      assert forall t :: t in g.tasks - {g.handle.value} ==> false;
    }
  }

  lemma StepKeepsTasks(g: Gateway, a: Action)
    requires TasksInOrder(g)
    ensures TasksInOrder(Step(g, a))
  {
    if Enabled(g, a) {
      AbortKillsAll(g);
      if a.HeartbeatTask? {
        TaskStepKeepsTasks(g, a.task, a.move);
      } else if a.HandleOp? {
        HandleKeepsTasks(g, g.reader.op);
      } else {
        ReaderStepKeepsTasks(g, a);
      }
    }
  }

  lemma TaskStepKeepsTasks(g: Gateway, t: nat, move: TaskMove)
    requires TasksInOrder(g) && TaskEnabled(g, t, move)
    ensures TasksInOrder(TaskStep(g, t, move))
  {
  }

  lemma HandleKeepsTasks(g: Gateway, op: Op)
    requires TasksInOrder(g) && g.reader.Handling? && |g.acked| > 0
    ensures TasksInOrder(Handle(g, op))
  {
    AbortKillsAll(g);
  }

  lemma ReaderStepKeepsTasks(g: Gateway, a: Action)
    requires TasksInOrder(g) && Enabled(g, a) && !a.HeartbeatTask? && !a.HandleOp?
    ensures TasksInOrder(ReaderStep(g, a))
  {
    AbortKillsAll(g);
  }

  lemma {:induction false} RunKeepsTasks(gatewayUrl: string, actions: seq<Action>)
    ensures TasksInOrder(Run(gatewayUrl, actions))
  {
    if |actions| > 0 {
      RunKeepsTasks(gatewayUrl, actions[..|actions| - 1]);
      StepKeepsTasks(Run(gatewayUrl, actions[..|actions| - 1]), actions[|actions| - 1]);
    }
  }

  // At most one heartbeat task is ever alive, it belongs to the newest
  // connection, and none is alive when a new connection opens.
  lemma OneHeartbeatTask(gatewayUrl: string, actions: seq<Action>)
    ensures var g := Run(gatewayUrl, actions);
            && (forall t, u :: t in g.tasks && u in g.tasks ==> t == u)
            && (forall t :: t in g.tasks ==> g.tasks[t].conn == |g.acked| - 1)
            && (Enabled(g, Connect(true)) ==> g.tasks == map[])
  {
    RunKeepsTasks(gatewayUrl, actions);
  }

  // The step that ends the read loop leaves no heartbeat task behind, unless the
  // loop returns because nobody takes its messages any more.
  lemma ExitTearsDownIff(gatewayUrl: string, actions: seq<Action>, a: Action)
    requires !Run(gatewayUrl, actions).reader.Stopped? && Step(Run(gatewayUrl, actions), a).reader.Stopped?
    ensures var g := Run(gatewayUrl, actions);
            Step(g, a).tasks == map[] <==> a != ConsumerGone || g.tasks == map[]
  {
    hide Run;
    RunKeepsTasks(gatewayUrl, actions);
    AbortKillsAll(Run(gatewayUrl, actions));
  }
}
