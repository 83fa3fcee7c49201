/** What a run of the ceremony service logs, read off its actions: which asks for
    a ceremony succeed, and which answers of the WebAuthn library and the store
    lead to a session. The stages of the handlers do not occur here. */
module PasskeyHistory {
  import opened Wrappers
  import opened PasskeyCeremonies

  // The service before step n
  function At(invites: set<string>, actions: seq<Action>, n: nat): Service
    requires n <= |actions|
  {
    Run(invites, actions[..n])
  }

  lemma NextStep(invites: set<string>, actions: seq<Action>, n: nat)
    requires n < |actions|
    ensures At(invites, actions, n + 1) == Step(At(invites, actions, n), actions[n])
  {
    hide Step;
    assert actions[..n + 1][..n] == actions[..n];
  }

  // Step n writes e into the log.
  ghost predicate Logs(invites: set<string>, actions: seq<Action>, n: nat, e: Event) {
    n < |actions| && At(invites, actions, n + 1).log == At(invites, actions, n).log + [e]
  }

  // ---------- which ceremonies are pending ----------

  // Step k takes the ceremony c, issued under id, out of the running: someone
  // asks for it, or a later start purges it as expired or issues its id again.
  ghost predicate Ends(invites: set<string>, actions: seq<Action>, k: nat, kind: Kind, id: string, c: Ceremony)
    requires k < |actions|
  {
    match actions[k]
    case BeginFinish(kind', id', _) => kind' == kind && id' == id
    case Start(kind', c', now, id') =>
      kind' == kind && (c.expiresAt <= now || (id' == id && Logs(invites, actions, k, Issued(kind, id, c'))))
    case _ => false
  }

  // The start at step s issued c under id, and nothing has ended it before step n.
  ghost predicate Alive(invites: set<string>, actions: seq<Action>, s: nat, n: nat, kind: Kind, id: string,
      c: Ceremony)
  {
    && s < n <= |actions|
    && Logs(invites, actions, s, Issued(kind, id, c))
    && forall k: nat :: s < k < n ==> !Ends(invites, actions, k, kind, id, c)
  }

  lemma LogsOnly(invites: set<string>, actions: seq<Action>, n: nat, e: Event, f: Event)
    requires Logs(invites, actions, n, e) && Logs(invites, actions, n, f)
    ensures e == f
  {
    hide Run;
    var log := At(invites, actions, n).log;
    assert (log + [e])[|log|] == e && (log + [f])[|log|] == f;
  }

  lemma StoreEntry(t: Table, c: Ceremony, now: int, freshId: string, id: string)
    ensures var r := Store(t, c, now, freshId);
            if id == freshId && r.result.Ok? then id in r.table && r.table[id] == c
            else if id in t && t[id].expiresAt > now then id in r.table && r.table[id] == t[id]
            else id !in r.table
  {
  }

  // A start is refused exactly when 256 unexpired ceremonies are pending.
  lemma StartLogs(s: Service, kind: Kind, c: Ceremony, now: int, id: string)
    ensures var stored := Store(TableOf(s, kind), c, now, id);
            && (stored.result.Ok? <==> StartStep(s, kind, c, now, id).log == s.log + [Issued(kind, id, c)])
            && (stored.result.Err? <==> |Unexpired(TableOf(s, kind), now)| >= 256)
  {
    hide Unexpired;
    var log := StartStep(s, kind, c, now, id).log;
    assert log[|s.log|].Issued? || log[|s.log|].Refused?;
  }

  // What a start does to the entry of one id
  lemma StartEntry(s: Service, kind': Kind, c: Ceremony, now: int, id': string, kind: Kind, id: string)
    ensures var next := StartStep(s, kind', c, now, id');
            var t, t' := TableOf(s, kind), TableOf(next, kind);
            if kind' != kind then t' == t
            else if id' == id && next.log == s.log + [Issued(kind, id, c)] then id in t' && t'[id] == c
            else if id in t && t[id].expiresAt > now then id in t' && t'[id] == t[id]
            else id !in t'
  {
    hide Store;
    StoreEntry(TableOf(s, kind'), c, now, id', id);
    StartLogs(s, kind', c, now, id');
  }

  lemma BeginEntry(s: Service, kind': Kind, now: int, id': string, kind: Kind, id: string)
    ensures var t, t' := TableOf(s, kind), TableOf(BeginStep(s, kind', id', now), kind);
            if kind' == kind && id' == id then id !in t'
            else (id in t' <==> id in t) && (id in t ==> t'[id] == t[id])
  {
    hide Take;
    TakeShape(TableOf(s, kind'), id', now);
  }

  lemma HandlerEntry(s: Service, a: Action, kind: Kind)
    requires !a.Start? && !a.BeginFinish?
    ensures TableOf(Step(s, a), kind) == TableOf(s, kind)
  {
  }

  // An entry is there exactly when its start has not been ended.
  lemma {:induction false} EntryIsAlive(invites: set<string>, actions: seq<Action>, n: nat, kind: Kind, id: string)
    requires n <= |actions| && id in TableOf(At(invites, actions, n), kind)
    ensures exists s: nat :: Alive(invites, actions, s, n, kind, id, TableOf(At(invites, actions, n), kind)[id])
  {
    hide Run, StartStep, BeginStep, HandlerStep;
    if n == 0 {
      NothingPending(invites, actions, kind);
    } else {
      var before, a := At(invites, actions, n - 1), actions[n - 1];
      NextStep(invites, actions, n - 1);
      var c := TableOf(At(invites, actions, n), kind)[id];
      match a {
        case Start(kind', c', now, id') => StartEntry(before, kind', c', now, id', kind, id);
        case BeginFinish(kind', id', now) => BeginEntry(before, kind', now, id', kind, id);
        case _ => HandlerEntry(before, a, kind);
      }
      if Logs(invites, actions, n - 1, Issued(kind, id, c)) && a.Start? && a.kind == kind && a.freshId == id {
        assert Alive(invites, actions, n - 1, n, kind, id, c);
      } else {
        EntryIsAlive(invites, actions, n - 1, kind, id);
        var s: nat :| Alive(invites, actions, s, n - 1, kind, id, c);
        assert Alive(invites, actions, s, n, kind, id, c);
      }
    }
  }

  lemma NothingPending(invites: set<string>, actions: seq<Action>, kind: Kind)
    ensures TableOf(At(invites, actions, 0), kind) == map[]
  {
  }

  lemma {:induction false} AliveIsEntry(invites: set<string>, actions: seq<Action>, s: nat, n: nat, kind: Kind,
      id: string, c: Ceremony)
    requires Alive(invites, actions, s, n, kind, id, c)
    ensures id in TableOf(At(invites, actions, n), kind) && TableOf(At(invites, actions, n), kind)[id] == c
  {
    hide Run, StartStep, BeginStep, HandlerStep;
    var before, a := At(invites, actions, n - 1), actions[n - 1];
    NextStep(invites, actions, n - 1);
    if s == n - 1 {
      IssuedByStart(before, a, kind, id, c);
      StartEntry(before, a.kind, a.ceremony, a.now, a.freshId, kind, id);
    } else {
      AliveIsEntry(invites, actions, s, n - 1, kind, id, c);
      assert !Ends(invites, actions, n - 1, kind, id, c);
      match a
      case Start(kind', c', now, id') => StartEntry(before, kind', c', now, id', kind, id);
      case BeginFinish(kind', id', now) => BeginEntry(before, kind', now, id', kind, id);
      case _ => HandlerEntry(before, a, kind);
    }
  }

  lemma IssuedByStart(s: Service, a: Action, kind: Kind, id: string, c: Ceremony)
    requires Step(s, a).log == s.log + [Issued(kind, id, c)]
    ensures a.Start? && a.kind == kind && a.freshId == id && a.ceremony == c
  {
    hide Store, Take;
    assert (s.log + [Issued(kind, id, c)])[|s.log|].Issued?;
    assert |Step(s, a).log| == |s.log| + 1;
  }

  lemma PendingIff(invites: set<string>, actions: seq<Action>, n: nat, kind: Kind, id: string, c: Ceremony)
    requires n <= |actions|
    ensures var t := TableOf(At(invites, actions, n), kind);
            id in t && t[id] == c <==> exists s: nat :: Alive(invites, actions, s, n, kind, id, c)
  {
    hide Run, Alive;
    if id in TableOf(At(invites, actions, n), kind) {
      EntryIsAlive(invites, actions, n, kind, id);
    }
    forall s: nat | Alive(invites, actions, s, n, kind, id, c)
      ensures id in TableOf(At(invites, actions, n), kind) && TableOf(At(invites, actions, n), kind)[id] == c
    {
      AliveIsEntry(invites, actions, s, n, kind, id, c);
    }
  }

  // Asking for a ceremony succeeds exactly when it was issued under that id, has
  // not been asked for since, and is still unexpired, now as at every start since.
  lemma TakeSucceedsIff(invites: set<string>, actions: seq<Action>, n: nat, c: Ceremony)
    requires n < |actions| && actions[n].BeginFinish?
    ensures var kind, id, now := actions[n].kind, actions[n].id, actions[n].now;
            (exists h: nat :: Logs(invites, actions, n, Took(kind, id, c, h, now)))
            <==> now < c.expiresAt && exists s: nat :: Alive(invites, actions, s, n, kind, id, c)
  {
    hide Run, Alive;
    var kind, id, now := actions[n].kind, actions[n].id, actions[n].now;
    var s := At(invites, actions, n);
    NextStep(invites, actions, n);
    PendingIff(invites, actions, n, kind, id, c);
    BeginLogs(s, kind, id, now);
    var e := BeginEvent(s, kind, id, now);
    assert Logs(invites, actions, n, e);
    if e == Took(kind, id, c, s.nextHandler, now) {
      assert Logs(invites, actions, n, Took(kind, id, c, s.nextHandler, now));
    }
    forall h: nat | Logs(invites, actions, n, Took(kind, id, c, h, now))
      ensures e == Took(kind, id, c, h, now)
    {
      LogsOnly(invites, actions, n, e, Took(kind, id, c, h, now));
    }
  }

  lemma BeginLogs(s: Service, kind: Kind, id: string, now: int)
    ensures BeginStep(s, kind, id, now).log == s.log + [BeginEvent(s, kind, id, now)]
    ensures var t, e := TableOf(s, kind), BeginEvent(s, kind, id, now);
            if id in t && now < t[id].expiresAt then e == Took(kind, id, t[id], s.nextHandler, now)
            else e == TakeFailed(kind, id)
  {
    hide Take;
    TakeShape(TableOf(s, kind), id, now);
  }

  // A start is turned away exactly when 256 unexpired ceremonies of its kind
  // are pending; else its ceremony is issued under the given id.
  lemma StartSucceedsIff(invites: set<string>, actions: seq<Action>, n: nat) returns (pending: set<string>)
    requires n < |actions| && actions[n].Start?
    ensures var kind, now := actions[n].kind, actions[n].now;
            forall id :: id in pending <==>
              exists s: nat, c: Ceremony :: now < c.expiresAt && Alive(invites, actions, s, n, kind, id, c)
    ensures Logs(invites, actions, n, Issued(actions[n].kind, actions[n].freshId, actions[n].ceremony))
            <==> |pending| < 256
  {
    hide Run, Alive, StartStep, Store;
    var kind, now := actions[n].kind, actions[n].now;
    var t := TableOf(At(invites, actions, n), kind);
    pending := Unexpired(t, now).Keys;
    NextStep(invites, actions, n);
    StartLogs(At(invites, actions, n), kind, actions[n].ceremony, now, actions[n].freshId);
    assert |pending| == |Unexpired(t, now)|;
    forall id
      ensures id in pending <==>
        exists s: nat, c: Ceremony :: now < c.expiresAt && Alive(invites, actions, s, n, kind, id, c)
    {
      if id in pending {
        PendingIff(invites, actions, n, kind, id, t[id]);
      }
      forall s: nat, c: Ceremony | now < c.expiresAt && Alive(invites, actions, s, n, kind, id, c)
        ensures id in pending
      {
        AliveIsEntry(invites, actions, s, n, kind, id, c);
      }
    }
  }
}
