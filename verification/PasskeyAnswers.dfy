/** Which answers lead to a session, over every run: the answers of the WebAuthn
    library and of the store are actions, and nothing else is looked at. */
module PasskeyAnswers {
  import opened Wrappers
  import opened PasskeyCeremonies
  import opened PasskeyHistory

  // Handler h began at step b, with the ceremony it had asked for.
  ghost predicate Began(invites: set<string>, actions: seq<Action>, b: nat, h: nat, kind: Kind, id: string,
      c: Ceremony)
  {
    b < |actions| && actions[b].BeginFinish? && Logs(invites, actions, b, Took(kind, id, c, h, actions[b].now))
  }

  ghost predicate NoneVerified(actions: seq<Action>, h: nat, lo: nat, hi: nat)
    requires hi <= |actions|
  {
    forall k :: lo < k < hi ==> !(actions[k].Verify? && actions[k].handler == h)
  }

  ghost predicate NoneConsulted(actions: seq<Action>, h: nat, lo: nat, hi: nat)
    requires hi <= |actions|
  {
    forall k :: lo < k < hi ==> !(actions[k].ConsultStore? && actions[k].handler == h)
  }

  ghost predicate NoneCreated(actions: seq<Action>, h: nat, lo: nat, hi: nat)
    requires hi <= |actions|
  {
    forall k :: lo < k < hi ==> !(actions[k].CreateSession? && actions[k].handler == h)
  }

  // A registration still finds its invite; a login needs none.
  ghost predicate InviteFree(invites: set<string>, actions: seq<Action>, k: nat, kind: Kind, c: Ceremony)
    requires k <= |actions|
  {
    kind == Registration ==> c.payload in invites && Unconsumed(At(invites, actions, k).log, c.payload)
  }

  // Before step n, handler h has begun and nothing has answered it.
  ghost predicate Asked(invites: set<string>, actions: seq<Action>, n: nat, h: nat, kind: Kind, id: string, c: Ceremony,
      b: nat)
  {
    b < n <= |actions| && Began(invites, actions, b, h, kind, id, c) && NoneVerified(actions, h, b, n)
  }

  // The first answer of the WebAuthn library was yes, at step v, and the store
  // has not answered since.
  ghost predicate Passed(invites: set<string>, actions: seq<Action>, n: nat, h: nat, kind: Kind, id: string,
      c: Ceremony, b: nat, v: nat)
  {
    && v < n <= |actions| && Asked(invites, actions, v, h, kind, id, c, b) && actions[v] == Verify(h, true)
    && NoneConsulted(actions, h, v, n)
  }

  // The store's first answer after that was yes too, at step k, with the invite
  // still free, and no session has been tried for since.
  ghost predicate Admitted(invites: set<string>, actions: seq<Action>, n: nat, h: nat, kind: Kind, id: string,
      c: Ceremony, b: nat, v: nat, k: nat)
  {
    && k < n <= |actions| && Passed(invites, actions, k, h, kind, id, c, b, v) && actions[k] == ConsultStore(h, true)
    && InviteFree(invites, actions, k, kind, c) && NoneCreated(actions, h, k, n)
  }

  // ---------- one step and one handler ----------

  ghost predicate Numbered(s: Service) {
    forall h :: h in s.handlers ==> h < s.nextHandler
  }

  lemma BeginNumbers(s: Service, kind: Kind, id: string, now: int, h: nat)
    requires Numbered(s)
    ensures var next, e := BeginStep(s, kind, id, now), BeginEvent(s, kind, id, now);
            && Numbered(next)
            && next.log == s.log + [e] && next.invites == s.invites
            && (e.Took? && e.handler == h ==>
                  h in next.handlers && next.handlers[h] == Holding(e.kind, e.id, e.ceremony))
            && (!(e.Took? && e.handler == h) ==>
                  (h in next.handlers <==> h in s.handlers) && (h in s.handlers ==> next.handlers[h] == s.handlers[h]))
  {
    hide Take;
  }

  lemma StartNumbers(s: Service, kind: Kind, c: Ceremony, now: int, freshId: string)
    ensures var next := StartStep(s, kind, c, now, freshId);
            && next.handlers == s.handlers && next.nextHandler == s.nextHandler && next.invites == s.invites
            && |next.log| == |s.log| + 1 && next.log[..|s.log|] == s.log
            && (next.log[|s.log|].Issued? || next.log[|s.log|].Refused?)
  {
  }

  ghost predicate InvitesCounted(invites: set<string>, s: Service) {
    forall invite :: invite in s.invites <==> invite in invites && Unconsumed(s.log, invite)
  }

  lemma UnconsumedGrows(log: seq<Event>, e: Event, invite: string)
    ensures Unconsumed(log + [e], invite) <==> Unconsumed(log, invite) && !(e.InviteConsumed? && e.invite == invite)
  {
    hide Standing, LastOf;
    AppendScans(log, e);
  }

  lemma StepCounts(invites: set<string>, s: Service, a: Action)
    requires InvitesCounted(invites, s)
    ensures InvitesCounted(invites, Step(s, a))
  {
    hide Unconsumed, Store, Take;
    var next := Step(s, a);
    if next.log != s.log {
      var e := next.log[|s.log|];
      assert next.log == s.log + [e];
      forall invite
        ensures Unconsumed(next.log, invite) <==>
                Unconsumed(s.log, invite) && !(e.InviteConsumed? && e.invite == invite)
      {
        UnconsumedGrows(s.log, e, invite);
      }
    }
  }

  lemma StepNumbers(s: Service, a: Action)
    requires Numbered(s)
    ensures Numbered(Step(s, a))
  {
    hide StartStep, BeginStep;
    match a
    case Start(kind, c, now, freshId) => StartNumbers(s, kind, c, now, freshId);
    case BeginFinish(kind, id, now) => BeginNumbers(s, kind, id, now, 0);
    case _ =>
  }

  lemma {:induction false} RunIsCounted(invites: set<string>, actions: seq<Action>, n: nat)
    requires n <= |actions|
    ensures Numbered(At(invites, actions, n)) && InvitesCounted(invites, At(invites, actions, n))
  {
    if n == 0 {
      NothingBegun(invites, actions);
    } else {
      hide Step, Run, Unconsumed;
      RunIsCounted(invites, actions, n - 1);
      NextStep(invites, actions, n - 1);
      StepNumbers(At(invites, actions, n - 1), actions[n - 1]);
      StepCounts(invites, At(invites, actions, n - 1), actions[n - 1]);
    }
  }

  lemma NothingBegun(invites: set<string>, actions: seq<Action>)
    ensures At(invites, actions, 0) == Initial(invites)
    ensures Numbered(Initial(invites)) && InvitesCounted(invites, Initial(invites))
  {
  }

  // ---------- the stage of a handler is what the answers make it ----------

  ghost predicate HasTrail(invites: set<string>, actions: seq<Action>, n: nat, h: nat, stage: Stage) {
    match stage
    case Holding(kind, id, c) => exists b: nat :: Asked(invites, actions, n, h, kind, id, c, b)
    case Verified(kind, id, c) => exists b: nat, v: nat :: Passed(invites, actions, n, h, kind, id, c, b, v)
    case Cleared(kind, id) =>
      exists c: Ceremony, b: nat, v: nat, k: nat :: Admitted(invites, actions, n, h, kind, id, c, b, v, k)
  }

  // The action that answers a handler in the given stage
  predicate Answers(a: Action, h: nat, stage: Stage) {
    match stage
    case Holding(_, _, _) => a.Verify? && a.handler == h
    case Verified(_, _, _) => a.ConsultStore? && a.handler == h
    case Cleared(_, _) => a.CreateSession? && a.handler == h
  }

  lemma UnansweredStays(s: Service, a: Action, h: nat)
    requires Numbered(s) && h in s.handlers && !Answers(a, h, s.handlers[h])
    ensures h in Step(s, a).handlers && Step(s, a).handlers[h] == s.handlers[h]
  {
    hide StartStep, BeginStep;
    match a
    case Start(kind, c, now, freshId) => StartNumbers(s, kind, c, now, freshId);
    case BeginFinish(kind, id, now) => BeginNumbers(s, kind, id, now, h);
    case _ =>
  }

  lemma TrailExtends(invites: set<string>, actions: seq<Action>, n: nat, h: nat, stage: Stage)
    requires n < |actions| && HasTrail(invites, actions, n, h, stage) && !Answers(actions[n], h, stage)
    ensures HasTrail(invites, actions, n + 1, h, stage)
  {
    hide Began, InviteFree;
    match stage
    case Holding(kind, id, c) =>
      var b: nat :| Asked(invites, actions, n, h, kind, id, c, b);
      assert Asked(invites, actions, n + 1, h, kind, id, c, b);
    case Verified(kind, id, c) =>
      var b: nat, v: nat :| Passed(invites, actions, n, h, kind, id, c, b, v);
      assert Passed(invites, actions, n + 1, h, kind, id, c, b, v);
    case Cleared(kind, id) =>
      var c: Ceremony, b: nat, v: nat, k: nat :| Admitted(invites, actions, n, h, kind, id, c, b, v, k);
      assert Admitted(invites, actions, n + 1, h, kind, id, c, b, v, k);
  }

  // What an answer makes of a stage; None ends the handler.
  function Answered(s: Service, a: Action, stage: Stage): Option<Stage> {
    match stage
    case Holding(kind, id, c) => if a.Verify? && a.ok then Some(Stage.Verified(kind, id, c)) else None
    case Verified(kind, id, c) =>
      if a.ConsultStore? && a.ok && (kind == Registration ==> c.payload in s.invites) then Some(Cleared(kind, id))
      else None
    case Cleared(_, _) => None
  }

  lemma AnswerMoves(s: Service, a: Action, h: nat)
    requires h in s.handlers && Answers(a, h, s.handlers[h])
    ensures var next, moved := Step(s, a), Answered(s, a, s.handlers[h]);
            && (h in next.handlers <==> moved.Some?)
            && (moved.Some? ==> next.handlers[h] == moved.value)
  {
  }

  lemma TrailMoves(invites: set<string>, actions: seq<Action>, n: nat, h: nat, stage: Stage)
    requires n < |actions| && HasTrail(invites, actions, n, h, stage) && Answers(actions[n], h, stage)
    requires Answered(At(invites, actions, n), actions[n], stage).Some?
    ensures HasTrail(invites, actions, n + 1, h, Answered(At(invites, actions, n), actions[n], stage).value)
  {
    hide Began, Run, Unconsumed;
    RunIsCounted(invites, actions, n);
    match stage
    case Holding(kind, id, c) =>
      var b: nat :| Asked(invites, actions, n, h, kind, id, c, b);
      assert Passed(invites, actions, n + 1, h, kind, id, c, b, n);
    case Verified(kind, id, c) =>
      var b: nat, v: nat :| Passed(invites, actions, n, h, kind, id, c, b, v);
      assert Admitted(invites, actions, n + 1, h, kind, id, c, b, v, n);
    case Cleared(_, _) =>
  }

  lemma FreshTrail(invites: set<string>, actions: seq<Action>, n: nat, h: nat)
    requires n < |actions| && h !in At(invites, actions, n).handlers && h in At(invites, actions, n + 1).handlers
    ensures HasTrail(invites, actions, n + 1, h, At(invites, actions, n + 1).handlers[h])
  {
    hide Run, StartStep, BeginStep;
    var s, a := At(invites, actions, n), actions[n];
    RunIsCounted(invites, actions, n);
    NextStep(invites, actions, n);
    match a {
      case Start(kind, c, now, freshId) => StartNumbers(s, kind, c, now, freshId);
      case BeginFinish(kind, id, now) =>
        BeginNumbers(s, kind, id, now, h);
        var e := BeginEvent(s, kind, id, now);
        assert Asked(invites, actions, n + 1, h, kind, id, e.ceremony, n);
      case _ =>
    }
  }

  lemma {:induction false} StageHasTrail(invites: set<string>, actions: seq<Action>, n: nat, h: nat)
    requires n <= |actions| && h in At(invites, actions, n).handlers
    ensures HasTrail(invites, actions, n, h, At(invites, actions, n).handlers[h])
  {
    if n == 0 {
      NothingBegun(invites, actions);
    } else {
      hide HasTrail, Step, Run, Answered, Answers;
      var s, a := At(invites, actions, n - 1), actions[n - 1];
      NextStep(invites, actions, n - 1);
      if h !in s.handlers {
        FreshTrail(invites, actions, n - 1, h);
      } else {
        StageHasTrail(invites, actions, n - 1, h);
        RunIsCounted(invites, actions, n - 1);
        if Answers(a, h, s.handlers[h]) {
          AnswerMoves(s, a, h);
          TrailMoves(invites, actions, n - 1, h, s.handlers[h]);
        } else {
          UnansweredStays(s, a, h);
          TrailExtends(invites, actions, n - 1, h, s.handlers[h]);
        }
      }
    }
  }

  // ---------- and the other way round ----------

  ghost predicate StandsAt(invites: set<string>, actions: seq<Action>, n: nat, h: nat, stage: Stage)
    requires n <= |actions|
  {
    h in At(invites, actions, n).handlers && At(invites, actions, n).handlers[h] == stage
  }

  lemma {:induction false} AskedHolds(invites: set<string>, actions: seq<Action>, n: nat, h: nat, kind: Kind,
      id: string, c: Ceremony, b: nat)
    requires Asked(invites, actions, n, h, kind, id, c, b)
    ensures StandsAt(invites, actions, n, h, Holding(kind, id, c))
  {
    hide Run, BeginStep, HandlerStep, StartStep;
    var s, a := At(invites, actions, n - 1), actions[n - 1];
    RunIsCounted(invites, actions, n - 1);
    NextStep(invites, actions, n - 1);
    if b == n - 1 {
      BeginNumbers(s, a.kind, a.id, a.now, h);
      var e := BeginEvent(s, a.kind, a.id, a.now);
      LogsOnly(invites, actions, b, e, Took(kind, id, c, h, a.now));
    } else {
      AskedHolds(invites, actions, n - 1, h, kind, id, c, b);
      UnansweredStays(s, a, h);
    }
  }

  lemma {:induction false} PassedHolds(invites: set<string>, actions: seq<Action>, n: nat, h: nat, kind: Kind,
      id: string, c: Ceremony, b: nat, v: nat)
    requires Passed(invites, actions, n, h, kind, id, c, b, v)
    ensures StandsAt(invites, actions, n, h, Stage.Verified(kind, id, c))
  {
    hide Run, BeginStep, HandlerStep, StartStep, Asked;
    var s, a := At(invites, actions, n - 1), actions[n - 1];
    RunIsCounted(invites, actions, n - 1);
    NextStep(invites, actions, n - 1);
    if v == n - 1 {
      AskedHolds(invites, actions, v, h, kind, id, c, b);
      AnswerMoves(s, a, h);
    } else {
      PassedHolds(invites, actions, n - 1, h, kind, id, c, b, v);
      UnansweredStays(s, a, h);
    }
  }

  lemma {:induction false} AdmittedHolds(invites: set<string>, actions: seq<Action>, n: nat, h: nat, kind: Kind,
      id: string, c: Ceremony, b: nat, v: nat, k: nat)
    requires Admitted(invites, actions, n, h, kind, id, c, b, v, k)
    ensures StandsAt(invites, actions, n, h, Cleared(kind, id))
  {
    hide Run, BeginStep, HandlerStep, StartStep, Passed, Unconsumed;
    var s, a := At(invites, actions, n - 1), actions[n - 1];
    RunIsCounted(invites, actions, n - 1);
    NextStep(invites, actions, n - 1);
    if k == n - 1 {
      PassedHolds(invites, actions, k, h, kind, id, c, b, v);
      AnswerMoves(s, a, h);
    } else {
      AdmittedHolds(invites, actions, n - 1, h, kind, id, c, b, v, k);
      UnansweredStays(s, a, h);
    }
  }

  // ---------- sessions and invites ----------

  lemma SessionNeedsCleared(s: Service, a: Action, kind: Kind, id: string, h: nat)
    ensures Step(s, a).log == s.log + [SessionIssued(kind, id, h)] <==>
            a == CreateSession(h, true) && h in s.handlers && s.handlers[h] == Cleared(kind, id)
  {
    hide Store, Take;
    var e := SessionIssued(kind, id, h);
    assert (s.log + [e])[|s.log|] == e;
    if |Step(s, a).log| > |s.log| {
      assert Step(s, a).log == s.log + [Step(s, a).log[|s.log|]];
    }
  }

  // A session is issued exactly when the handler began with its ceremony, the
  // first answer of the WebAuthn library was yes, the store's first answer after
  // that was yes with the invite still free, and so was its first one after that.
  lemma SessionIff(invites: set<string>, actions: seq<Action>, n: nat, h: nat, kind: Kind, id: string)
    requires n < |actions|
    ensures Logs(invites, actions, n, SessionIssued(kind, id, h)) <==>
            && actions[n] == CreateSession(h, true)
            && exists c: Ceremony, b: nat, v: nat, k: nat ::
                 Admitted(invites, actions, n, h, kind, id, c, b, v, k)
  {
    hide Run, Step, Admitted;
    NextStep(invites, actions, n);
    SessionNeedsCleared(At(invites, actions, n), actions[n], kind, id, h);
    if Logs(invites, actions, n, SessionIssued(kind, id, h)) {
      StageHasTrail(invites, actions, n, h);
    }
    forall c: Ceremony, b: nat, v: nat, k: nat | Admitted(invites, actions, n, h, kind, id, c, b, v, k)
      ensures StandsAt(invites, actions, n, h, Cleared(kind, id))
    {
      AdmittedHolds(invites, actions, n, h, kind, id, c, b, v, k);
    }
  }

  lemma InviteNeedsVerified(s: Service, a: Action, h: nat, id: string, invite: string)
    ensures Step(s, a).log == s.log + [InviteConsumed(h, id, invite)] <==>
            && a == ConsultStore(h, true) && h in s.handlers && s.handlers[h].Verified?
            && s.handlers[h].kind == Registration && s.handlers[h].id == id
            && s.handlers[h].ceremony.payload == invite && invite in s.invites
  {
    hide Store, Take;
    var e := InviteConsumed(h, id, invite);
    assert (s.log + [e])[|s.log|] == e;
    if |Step(s, a).log| > |s.log| {
      assert Step(s, a).log == s.log + [Step(s, a).log[|s.log|]];
    }
  }

  // An invite is consumed exactly by a registration that was issued for it and
  // verified, while it is still free.
  lemma InviteConsumedIff(invites: set<string>, actions: seq<Action>, n: nat, h: nat, id: string, invite: string)
    requires n < |actions|
    ensures Logs(invites, actions, n, InviteConsumed(h, id, invite)) <==>
            && actions[n] == ConsultStore(h, true)
            && exists c: Ceremony, b: nat, v: nat ::
                 && Passed(invites, actions, n, h, Registration, id, c, b, v) && c.payload == invite
                 && InviteFree(invites, actions, n, Registration, c)
  {
    hide Run, Step, Passed, Unconsumed;
    NextStep(invites, actions, n);
    RunIsCounted(invites, actions, n);
    InviteNeedsVerified(At(invites, actions, n), actions[n], h, id, invite);
    if Logs(invites, actions, n, InviteConsumed(h, id, invite)) {
      StageHasTrail(invites, actions, n, h);
    }
    forall c: Ceremony, b: nat, v: nat | Passed(invites, actions, n, h, Registration, id, c, b, v)
      ensures StandsAt(invites, actions, n, h, Stage.Verified(Registration, id, c))
    {
      PassedHolds(invites, actions, n, h, Registration, id, c, b, v);
    }
  }

  // Step n answers the question handler h stands at with no.
  ghost predicate Refusal(invites: set<string>, actions: seq<Action>, n: nat, h: nat) {
    n < |actions| &&
    match actions[n]
    case Verify(h', ok) =>
      h' == h && !ok &&
      exists kind: Kind, id: string, c: Ceremony, b: nat :: Asked(invites, actions, n, h, kind, id, c, b)
    case ConsultStore(h', ok) =>
      h' == h && !ok &&
      exists kind: Kind, id: string, c: Ceremony, b: nat, v: nat ::
        Passed(invites, actions, n, h, kind, id, c, b, v)
    case CreateSession(h', ok) =>
      h' == h && !ok &&
      exists kind: Kind, id: string, c: Ceremony, b: nat, v: nat, k: nat ::
        Admitted(invites, actions, n, h, kind, id, c, b, v, k)
    case _ => false
  }

  ghost predicate Over(s: Service, h: nat) {
    h !in s.handlers && h < s.nextHandler
  }

  lemma StepStaysOver(s: Service, a: Action, h: nat)
    requires Over(s, h) && Numbered(s)
    ensures Over(Step(s, a), h)
  {
    hide StartStep, Take;
    match a
    case Start(kind, c, now, freshId) => StartNumbers(s, kind, c, now, freshId);
    case _ =>
  }

  lemma {:induction false} StaysOver(invites: set<string>, actions: seq<Action>, n: nat, m: nat, h: nat)
    requires n <= m <= |actions| && Over(At(invites, actions, n), h)
    ensures Over(At(invites, actions, m), h)
    decreases m
  {
    hide Run, Step, At, InvitesCounted, Numbered, Over;
    if n == m {
    } else {
      StaysOver(invites, actions, n, m - 1, h);
      RunIsCounted(invites, actions, m - 1);
      NextStep(invites, actions, m - 1);
      StepStaysOver(At(invites, actions, m - 1), actions[m - 1], h);
    }
  }

  lemma RefusalEnds(invites: set<string>, actions: seq<Action>, n: nat, h: nat)
    requires Refusal(invites, actions, n, h)
    ensures h in At(invites, actions, n).handlers && Over(At(invites, actions, n + 1), h)
  {
    hide Run, Step, Asked, Passed, Admitted;
    NextStep(invites, actions, n);
    RunIsCounted(invites, actions, n);
    var s := At(invites, actions, n);
    match actions[n] {
      case Verify(_, _) =>
        var kind: Kind, id: string, c: Ceremony, b: nat :| Asked(invites, actions, n, h, kind, id, c, b);
        AskedHolds(invites, actions, n, h, kind, id, c, b);
      case ConsultStore(_, _) =>
        var kind: Kind, id: string, c: Ceremony, b: nat, v: nat :| Passed(invites, actions, n, h, kind, id, c, b, v);
        PassedHolds(invites, actions, n, h, kind, id, c, b, v);
      case CreateSession(_, _) =>
        var kind: Kind, id: string, c: Ceremony, b: nat, v: nat, k: nat
          :| Admitted(invites, actions, n, h, kind, id, c, b, v, k);
        AdmittedHolds(invites, actions, n, h, kind, id, c, b, v, k);
    }
    AnswerMoves(s, actions[n], h);
    AnswerKeepsNumber(s, actions[n]);
  }

  lemma AnswerKeepsNumber(s: Service, a: Action)
    requires !a.Start? && !a.BeginFinish?
    ensures Step(s, a).nextHandler == s.nextHandler
  {
  }

  lemma SessionEnds(s: Service, h: nat, kind: Kind, id: string)
    requires Numbered(s) && h in s.handlers && s.handlers[h] == Cleared(kind, id)
    ensures Over(Step(s, CreateSession(h, true)), h)
  {
  }

  // Whoever answers no, a handler that was answered no never gets a session.
  lemma RefusedForGood(invites: set<string>, actions: seq<Action>, n: nat, h: nat, m: nat, kind: Kind, id: string)
    requires Refusal(invites, actions, n, h)
    ensures !Logs(invites, actions, m, SessionIssued(kind, id, h))
  {
    if Logs(invites, actions, m, SessionIssued(kind, id, h)) {
      hide Run, Step, Refusal;
      RefusalEnds(invites, actions, n, h);
      NextStep(invites, actions, m);
      RunIsCounted(invites, actions, m);
      SessionNeedsCleared(At(invites, actions, m), actions[m], kind, id, h);
      SessionEnds(At(invites, actions, m), h, kind, id);
      if n < m {
        StaysOver(invites, actions, n + 1, m, h);
      } else if m < n {
        StaysOver(invites, actions, m + 1, n, h);
      } else {
        RefusalIsNo(invites, actions, n, h);
      }
    }
  }

  lemma RefusalIsNo(invites: set<string>, actions: seq<Action>, n: nat, h: nat)
    requires Refusal(invites, actions, n, h)
    ensures actions[n] != CreateSession(h, true)
  {
  }
}
