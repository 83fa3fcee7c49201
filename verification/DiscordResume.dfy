/** What the gateway says after a HELLO, where it connects, and how long it
    waits, over every run and every reconnect. */
module DiscordResume {
  import opened Wrappers
  import opened DiscordGateway

  // ---------- the session and the sequence number, read off the log ----------

  function LatestSession(log: seq<Event>): Option<string> {
    if |log| == 0 then None
    else
      match log[|log| - 1]
      case ReadySeen(sid, _) => Some(sid)
      case SessionInvalidated => None
      case _ => LatestSession(log[..|log| - 1])
  }

  function LatestSequence(log: seq<Event>): Option<nat> {
    if |log| == 0 then None
    else
      match log[|log| - 1]
      case SequenceSeen(s) => Some(s)
      case SessionInvalidated => None
      case _ => LatestSequence(log[..|log| - 1])
  }

  // The address to reconnect to: that of the latest READY which named one
  function LatestUrl(log: seq<Event>): Option<string> {
    if |log| == 0 then None
    else if log[|log| - 1].ReadySeen? && log[|log| - 1].resumeUrl != "" then Some(log[|log| - 1].resumeUrl)
    else LatestUrl(log[..|log| - 1])
  }

  function Address(gatewayUrl: string, log: seq<Event>): string {
    if LatestUrl(log).Some? then ResumeAddress(LatestUrl(log).value) else gatewayUrl
  }

  // Sleeps since the last connection was opened
  function SleepsInARow(log: seq<Event>): nat {
    if |log| == 0 || log[|log| - 1].Connected? then 0
    else SleepsInARow(log[..|log| - 1]) + (if log[|log| - 1].Slept? then 1 else 0)
  }

  function BackoffAfter(sleeps: nat): (seconds: nat)
    ensures INITIAL_BACKOFF <= seconds <= MAX_BACKOFF
  {
    if sleeps == 0 then INITIAL_BACKOFF else Doubled(BackoffAfter(sleeps - 1))
  }

  // What must hold when e is appended
  predicate Justified(gatewayUrl: string, log: seq<Event>, e: Event) {
    match e
    case ResumeSent(sid, s) => LatestSession(log) == Some(sid) && LatestSequence(log) == Some(s)
    case IdentifySent => LatestSession(log).None? || LatestSequence(log).None?
    case Connected(_, url) => url == Address(gatewayUrl, log)
    case Slept(seconds) => seconds == BackoffAfter(SleepsInARow(log))
    case _ => true
  }

  ghost predicate AllJustified(gatewayUrl: string, log: seq<Event>) {
    forall i :: 0 <= i < |log| ==> Justified(gatewayUrl, log[..i], log[i])
  }

  ghost predicate Remembers(gatewayUrl: string, g: Gateway) {
    && g.session == LatestSession(g.log)
    && g.sequence == LatestSequence(g.log)
    && g.resumeUrl == LatestUrl(g.log)
    && g.backoff == BackoffAfter(SleepsInARow(g.log))
    && AddressKept(gatewayUrl, g)
    && AllJustified(gatewayUrl, g.log)
  }

  ghost predicate AddressKept(gatewayUrl: string, g: Gateway) {
    && (g.resumeUrl.None? ==> g.connectUrl == gatewayUrl)
    && (BetweenConnections(g.reader) && g.resumeUrl.Some? ==> g.connectUrl == ResumeAddress(g.resumeUrl.value))
  }

  lemma AppendFacts(gatewayUrl: string, log: seq<Event>, e: Event)
    ensures LatestSession(log + [e]) ==
            if e.ReadySeen? then Some(e.session) else if e.SessionInvalidated? then None else LatestSession(log)
    ensures LatestSequence(log + [e]) ==
            if e.SequenceSeen? then Some(e.sequence) else if e.SessionInvalidated? then None else LatestSequence(log)
    ensures LatestUrl(log + [e]) == if e.ReadySeen? && e.resumeUrl != "" then Some(e.resumeUrl) else LatestUrl(log)
    ensures SleepsInARow(log + [e]) == if e.Connected? then 0 else SleepsInARow(log) + (if e.Slept? then 1 else 0)
    ensures AllJustified(gatewayUrl, log) && Justified(gatewayUrl, log, e) ==> AllJustified(gatewayUrl, log + [e])
  {
    assert (log + [e])[..|log|] == log;
    if AllJustified(gatewayUrl, log) && Justified(gatewayUrl, log, e) {
      AppendJustified(gatewayUrl, log, e);
    }
  }

  lemma AppendJustified(gatewayUrl: string, log: seq<Event>, e: Event)
    requires AllJustified(gatewayUrl, log) && Justified(gatewayUrl, log, e)
    ensures AllJustified(gatewayUrl, log + [e])
  {
    hide Justified;
    forall i | 0 <= i < |log + [e]| ensures Justified(gatewayUrl, (log + [e])[..i], (log + [e])[i]) {
      assert (log + [e])[..i] == log[..i];
      assert i == |log| ==> log[..i] == log;
    }
  }

  // One event, and the fields it is allowed to change
  lemma EventRemembered(gatewayUrl: string, g: Gateway, next: Gateway, e: Event)
    requires Remembers(gatewayUrl, g) && next.log == g.log + [e] && Justified(gatewayUrl, g.log, e)
    requires next.session == if e.ReadySeen? then Some(e.session) else if e.SessionInvalidated? then None else g.session
    requires next.sequence ==
             if e.SequenceSeen? then Some(e.sequence) else if e.SessionInvalidated? then None else g.sequence
    requires next.resumeUrl == if e.ReadySeen? && e.resumeUrl != "" then Some(e.resumeUrl) else g.resumeUrl
    requires next.backoff ==
             if e.Connected? then INITIAL_BACKOFF else if e.Slept? then Doubled(g.backoff) else g.backoff
    requires AddressKept(gatewayUrl, next)
    ensures Remembers(gatewayUrl, next)
  {
    hide LatestSession, LatestSequence, LatestUrl, SleepsInARow, AllJustified, Justified, AddressKept, Doubled;
    AppendFacts(gatewayUrl, g.log, e);
  }

  // No event, and no change to what is remembered
  lemma QuietRemembered(gatewayUrl: string, g: Gateway, next: Gateway)
    requires Remembers(gatewayUrl, g) && next.log == g.log
    requires next.session == g.session && next.resumeUrl == g.resumeUrl && next.backoff == g.backoff
    requires next.sequence == g.sequence
    requires AddressKept(gatewayUrl, next)
    ensures Remembers(gatewayUrl, next)
  {
  }

  lemma TaskStepRemembers(gatewayUrl: string, g: Gateway, t: nat, move: TaskMove)
    requires Remembers(gatewayUrl, g) && TaskEnabled(g, t, move)
    ensures Remembers(gatewayUrl, TaskStep(g, t, move))
  {
    hide LatestSession, LatestSequence, LatestUrl, SleepsInARow, AllJustified, BackoffAfter, Remembers, Address;
    var next := TaskStep(g, t, move);
    RemembersAddress(gatewayUrl, g);
    if next.log == g.log {
      QuietRemembered(gatewayUrl, g, next);
    } else {
      EventRemembered(gatewayUrl, g, next, next.log[|g.log|]);
    }
  }

  lemma RemembersAddress(gatewayUrl: string, g: Gateway)
    requires Remembers(gatewayUrl, g)
    ensures AddressKept(gatewayUrl, g)
    ensures g.session == LatestSession(g.log) && g.sequence == LatestSequence(g.log)
    ensures BetweenConnections(g.reader) ==> g.connectUrl == Address(gatewayUrl, g.log)
    ensures g.backoff == BackoffAfter(SleepsInARow(g.log))
  {
  }

  lemma HelloRemembers(gatewayUrl: string, g: Gateway)
    requires Remembers(gatewayUrl, g) && g.reader == Handling(Hello) && |g.acked| > 0
    ensures Remembers(gatewayUrl, Handle(g, Hello))
  {
    hide LatestSession, LatestSequence, LatestUrl, SleepsInARow, AllJustified, BackoffAfter, Remembers, Address;
    RemembersAddress(gatewayUrl, g);
    EventRemembered(gatewayUrl, g, Handle(g, Hello), Spawned(g.nextTask, |g.acked| - 1));
  }

  lemma HandleRemembers(gatewayUrl: string, g: Gateway)
    requires Remembers(gatewayUrl, g) && g.reader.Handling? && |g.acked| > 0
    ensures Remembers(gatewayUrl, Handle(g, g.reader.op))
  {
    hide LatestSession, LatestSequence, LatestUrl, SleepsInARow, AllJustified, BackoffAfter, Remembers, Address;
    if g.reader.op.Hello? {
      HelloRemembers(gatewayUrl, g);
    } else {
      var next := Handle(g, g.reader.op);
      RemembersAddress(gatewayUrl, g);
      if next.log == g.log {
        QuietRemembered(gatewayUrl, g, next);
      } else {
        EventRemembered(gatewayUrl, g, next, next.log[|g.log|]);
      }
    }
  }

  lemma ReaderStepRemembers(gatewayUrl: string, g: Gateway, a: Action)
    requires Remembers(gatewayUrl, g) && Enabled(g, a) && !a.HeartbeatTask? && !a.HandleOp?
    ensures Remembers(gatewayUrl, ReaderStep(g, a))
  {
    hide LatestSession, LatestSequence, LatestUrl, SleepsInARow, AllJustified, BackoffAfter, Remembers, Address;
    var next := ReaderStep(g, a);
    RemembersAddress(gatewayUrl, g);
    if next.log == g.log {
      QuietRemembered(gatewayUrl, g, next);
    } else {
      EventRemembered(gatewayUrl, g, next, next.log[|g.log|]);
    }
  }

  lemma StepRemembers(gatewayUrl: string, g: Gateway, a: Action)
    requires Remembers(gatewayUrl, g)
    ensures Remembers(gatewayUrl, Step(g, a))
  {
    hide Remembers, Handle, ReaderStep, TaskStep;
    if Enabled(g, a) {
      if a.HeartbeatTask? {
        TaskStepRemembers(gatewayUrl, g, a.task, a.move);
      } else if a.HandleOp? {
        HandleRemembers(gatewayUrl, g);
      } else {
        ReaderStepRemembers(gatewayUrl, g, a);
      }
    }
  }

  lemma {:induction false} RunRemembers(gatewayUrl: string, actions: seq<Action>)
    ensures Remembers(gatewayUrl, Run(gatewayUrl, actions))
  {
    if |actions| > 0 {
      hide Remembers, Step;
      RunRemembers(gatewayUrl, actions[..|actions| - 1]);
      StepRemembers(gatewayUrl, Run(gatewayUrl, actions[..|actions| - 1]), actions[|actions| - 1]);
    }
  }

  // ---------- the same, without the scanning functions ----------

  // log[k] is the last event before i that set or cleared the session
  ghost predicate CurrentReady(log: seq<Event>, k: nat, i: nat) {
    k < i <= |log| && log[k].ReadySeen? && forall l :: k < l < i ==> !log[l].ReadySeen? && !log[l].SessionInvalidated?
  }

  ghost predicate CurrentSequence(log: seq<Event>, k: nat, i: nat) {
    && k < i <= |log| && log[k].SequenceSeen?
    && forall l :: k < l < i ==> !log[l].SequenceSeen? && !log[l].SessionInvalidated?
  }

  lemma {:induction false} LatestSessionMeans(log: seq<Event>, sid: string)
    ensures LatestSession(log) == Some(sid) <==> exists k: nat :: CurrentReady(log, k, |log|) && log[k].session == sid
  {
    if |log| > 0 {
      var before := log[..|log| - 1];
      LatestSessionMeans(before, sid);
      if log[|log| - 1].ReadySeen? {
        assert CurrentReady(log, |log| - 1, |log|);
      } else if !log[|log| - 1].SessionInvalidated? {
        assert forall k: nat :: CurrentReady(before, k, |before|) <==> CurrentReady(log, k, |log|);
      }
    }
  }

  lemma {:induction false} LatestSequenceMeans(log: seq<Event>, s: nat)
    ensures LatestSequence(log) == Some(s) <==> exists k: nat :: CurrentSequence(log, k, |log|) && log[k].sequence == s
  {
    if |log| > 0 {
      var before := log[..|log| - 1];
      LatestSequenceMeans(before, s);
      if log[|log| - 1].SequenceSeen? {
        assert CurrentSequence(log, |log| - 1, |log|);
      } else if !log[|log| - 1].SessionInvalidated? {
        assert forall k: nat :: CurrentSequence(before, k, |before|) <==> CurrentSequence(log, k, |log|);
      }
    }
  }

  lemma PrefixCurrent(log: seq<Event>, i: nat)
    requires i <= |log|
    ensures forall k: nat :: CurrentReady(log[..i], k, i) <==> CurrentReady(log, k, i)
    ensures forall k: nat :: CurrentSequence(log[..i], k, i) <==> CurrentSequence(log, k, i)
  {
  }

  // Every RESUME carries the session of the latest READY and the latest
  // sequence number, neither invalidated since.
  lemma ResumeIsCurrent(gatewayUrl: string, actions: seq<Action>, i: nat) returns (ready: nat, seen: nat)
    requires i < |Run(gatewayUrl, actions).log| && Run(gatewayUrl, actions).log[i].ResumeSent?
    ensures var log := Run(gatewayUrl, actions).log;
            && CurrentReady(log, ready, i) && log[ready].session == log[i].session
            && CurrentSequence(log, seen, i) && log[seen].sequence == log[i].sequence
  {
    hide Run, LatestSession, LatestSequence, LatestUrl;
    var log := Run(gatewayUrl, actions).log;
    RunRemembers(gatewayUrl, actions);
    assert Justified(gatewayUrl, log[..i], log[i]);
    LatestSessionMeans(log[..i], log[i].session);
    LatestSequenceMeans(log[..i], log[i].sequence);
    PrefixCurrent(log, i);
    ready :| CurrentReady(log[..i], ready, i) && log[..i][ready].session == log[i].session;
    seen :| CurrentSequence(log[..i], seen, i) && log[..i][seen].sequence == log[i].sequence;
  }

  // IDENTIFY is sent only when there is nothing to resume.
  lemma IdentifyMeansNothingToResume(gatewayUrl: string, actions: seq<Action>, i: nat)
    requires i < |Run(gatewayUrl, actions).log| && Run(gatewayUrl, actions).log[i].IdentifySent?
    ensures var log := Run(gatewayUrl, actions).log;
            (forall k: nat :: !CurrentReady(log, k, i)) || (forall k: nat :: !CurrentSequence(log, k, i))
  {
    hide Run, LatestSession, LatestSequence, LatestUrl;
    var log := Run(gatewayUrl, actions).log;
    RunRemembers(gatewayUrl, actions);
    assert Justified(gatewayUrl, log[..i], log[i]);
    PrefixCurrent(log, i);
    forall k: nat, l: nat | CurrentReady(log, k, i) && CurrentSequence(log, l, i)
      ensures LatestSession(log[..i]).Some? && LatestSequence(log[..i]).Some?
    {
      assert CurrentReady(log[..i], k, i) && CurrentSequence(log[..i], l, i);
      LatestSessionMeans(log[..i], log[..i][k].session);
      LatestSequenceMeans(log[..i], log[..i][l].sequence);
    }
  }

  // After a non-resumable INVALID_SESSION no RESUME is sent until a new READY.
  lemma NoResumeAfterInvalidation(gatewayUrl: string, actions: seq<Action>, i: nat, j: nat)
    requires var log := Run(gatewayUrl, actions).log;
             && i < j < |log| && log[i].SessionInvalidated?
             && forall k :: i < k < j ==> !log[k].ReadySeen?
    ensures !Run(gatewayUrl, actions).log[j].ResumeSent?
  {
    hide Run;
    if Run(gatewayUrl, actions).log[j].ResumeSent? {
      var ready, seen := ResumeIsCurrent(gatewayUrl, actions, j);
    }
  }

  function PowerOfTwo(n: nat): (p: nat)
    ensures p > 0
  {
    if n == 0 then 1 else 2 * PowerOfTwo(n - 1)
  }

  lemma {:induction false} BackoffDoubles(sleeps: nat)
    ensures BackoffAfter(sleeps) == if PowerOfTwo(sleeps) <= 60 then PowerOfTwo(sleeps) else 60
  {
    if sleeps > 0 {
      BackoffDoubles(sleeps - 1);
    }
  }

  // Every reconnect goes to the address of the latest READY that named one, and
  // every sleep lasts one second after a connection, then twice as long as the
  // one before, and 60 seconds at most.
  lemma ConnectionsAndSleeps(gatewayUrl: string, actions: seq<Action>, i: nat)
    requires i < |Run(gatewayUrl, actions).log|
    ensures var log := Run(gatewayUrl, actions).log;
            && (log[i].Connected? ==> log[i].url == Address(gatewayUrl, log[..i]))
            && (log[i].Slept? ==>
                  var doubled := PowerOfTwo(SleepsInARow(log[..i]));
                  log[i].seconds == if doubled <= 60 then doubled else 60)
  {
    hide Run, LatestSession, LatestSequence, LatestUrl, SleepsInARow, BackoffAfter;
    BackoffDoubles(SleepsInARow(Run(gatewayUrl, actions).log[..i]));
    var log := Run(gatewayUrl, actions).log;
    RunRemembers(gatewayUrl, actions);
    assert Justified(gatewayUrl, log[..i], log[i]);
  }
}
