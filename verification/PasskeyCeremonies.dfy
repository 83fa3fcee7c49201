/** Pending WebAuthn ceremonies: two bounded tables of expiring, single-use
    entries, and the finish handlers that turn a taken entry into a session. */
module PasskeyCeremonies {
  import opened Wrappers

  const MAX_PENDING: nat := 256

  // payload stands for the WebAuthn state; for a registration it names the invite
  datatype Ceremony = Ceremony(expiresAt: int, payload: string)

  type Table = map<string, Ceremony>

  // ---------- one table ----------

  function Unexpired(t: Table, now: int): Table {
    map id | id in t && t[id].expiresAt > now :: t[id]
  }

  datatype Stored = Stored(table: Table, result: Result<string, string>)

  function Store(t: Table, c: Ceremony, now: int, freshId: string): Stored {
    var pending := Unexpired(t, now);
    if |pending| >= MAX_PENDING then Stored(pending, Err("too many pending ceremonies"))
    else Stored(pending[freshId := c], Ok(freshId))
  }

  datatype Taken = Taken(table: Table, result: Result<Ceremony, string>)

  function Take(t: Table, id: string, now: int): Taken {
    if id !in t then Taken(t, Err("ceremony is missing or already used"))
    else if t[id].expiresAt <= now then Taken(t - {id}, Err("ceremony has expired"))
    else Taken(t - {id}, Ok(t[id]))
  }

  lemma {:induction false} SubsetSize(a: set<string>, b: set<string>)
    requires a <= b
    ensures |a| <= |b|
  {
    if a != {} {
      var x :| x in a;
      SubsetSize(a - {x}, b - {x});
    }
  }

  // The table never exceeds its bound, and a store is refused only when the
  // bound is reached by entries that are all still unexpired.
  lemma StoreStaysBounded(t: Table, c: Ceremony, now: int, freshId: string)
    requires |t| <= MAX_PENDING
    ensures |Store(t, c, now, freshId).table| <= MAX_PENDING
    ensures Store(t, c, now, freshId).result.Err? <==> |Unexpired(t, now)| == MAX_PENDING
  {
    var pending := Unexpired(t, now);
    SubsetSize(pending.Keys, t.Keys);
    assert |pending| == |pending.Keys| && |t| == |t.Keys|;
    assert pending[freshId := c].Keys == pending.Keys + {freshId};
    assert |pending[freshId := c]| == |pending[freshId := c].Keys|;
  }

  class CeremonyTable {
    var pending: Table

    constructor ()
      ensures pending == map[]
    {
      pending := map[];
    }

    method StoreCeremony(c: Ceremony, now: int, freshId: string) returns (r: Result<string, string>)
      requires |pending| <= MAX_PENDING
      modifies this
      ensures Stored(pending, r) == Store(old(pending), c, now, freshId)
      ensures |pending| <= MAX_PENDING
    {
      StoreStaysBounded(pending, c, now, freshId);
      pending := Unexpired(pending, now);
      if |pending| >= MAX_PENDING {
        return Err("too many pending ceremonies");
      }
      pending := pending[freshId := c];
      return Ok(freshId);
    }

    // Whatever the outcome, the entry is gone afterwards.
    method TakeCeremony(id: string, now: int) returns (r: Result<Ceremony, string>)
      requires |pending| <= MAX_PENDING
      modifies this
      ensures Taken(pending, r) == Take(old(pending), id, now)
      ensures id !in pending && |pending| <= MAX_PENDING
    {
      if id !in pending {
        return Err("ceremony is missing or already used");
      }
      var item := pending[id];
      RemoveShrinks(pending, id);
      pending := pending - {id};
      if item.expiresAt <= now {
        return Err("ceremony has expired");
      }
      return Ok(item);
    }
  }

  lemma RemoveShrinks(t: Table, id: string)
    ensures |t - {id}| <= |t|
  {
    assert (t - {id}).Keys == t.Keys - {id};
    SubsetSize((t - {id}).Keys, t.Keys);
    assert |t - {id}| == |(t - {id}).Keys| && |t| == |t.Keys|;
  }

  // ---------- the service: any interleaving of handlers ----------

  datatype Kind = Registration | Authentication

  // A finish handler between two of its atomic steps
  datatype Stage =
    | Holding(kind: Kind, id: string, ceremony: Ceremony)   // taken, not verified
    | Verified(kind: Kind, id: string, ceremony: Ceremony)  // verified, store not consulted
    | Cleared(kind: Kind, id: string)                       // invite consumed or passkey updated

  datatype Event =
    | Issued(kind: Kind, id: string, ceremony: Ceremony)
    | Refused(kind: Kind, unexpired: nat)
    | Took(kind: Kind, id: string, ceremony: Ceremony, handler: nat, now: int)
    | TakeFailed(kind: Kind, id: string)
    | InviteConsumed(handler: nat, id: string, invite: string)
    | SessionIssued(kind: Kind, id: string, handler: nat)

  datatype Service = Service(
    tables: map<Kind, Table>,
    invites: set<string>,             // not yet consumed
    handlers: map<nat, Stage>,
    nextHandler: nat,
    log: seq<Event>)

  datatype Action =
    | Start(kind: Kind, ceremony: Ceremony, now: int, freshId: string)
    | BeginFinish(kind: Kind, id: string, now: int)
    | Verify(handler: nat, ok: bool)
    | ConsultStore(handler: nat, ok: bool)
    | CreateSession(handler: nat, ok: bool)

  function Initial(invites: set<string>): Service {
    Service(map[Registration := map[], Authentication := map[]], invites, map[], 0, [])
  }

  function TableOf(s: Service, kind: Kind): Table {
    if kind in s.tables then s.tables[kind] else map[]
  }

  // Random ids are fresh: never issued before.
  ghost predicate FreshId(log: seq<Event>, kind: Kind, id: string) {
    forall i :: 0 <= i < |log| && log[i].Issued? && log[i].kind == kind ==> log[i].id != id
  }

  function Record(s: Service, e: Event): Service {
    s.(log := s.log + [e])
  }

  function Drop(s: Service, h: nat): Service {
    s.(handlers := s.handlers - {h})
  }

  function StartStep(s: Service, kind: Kind, c: Ceremony, now: int, freshId: string): Service {
    var stored := Store(TableOf(s, kind), c, now, freshId);
    var next := s.(tables := s.tables[kind := stored.table]);
    if stored.result.Ok? then Record(next, Issued(kind, freshId, c))
    else Record(next, Refused(kind, |Unexpired(TableOf(s, kind), now)|))
  }

  // The ceremony is taken out before anything is verified.
  function BeginStep(s: Service, kind: Kind, id: string, now: int): Service {
    var taken := Take(TableOf(s, kind), id, now);
    var next := s.(tables := s.tables[kind := taken.table]);
    if taken.result.Err? then Record(next, TakeFailed(kind, id))
    else
      Record(next.(handlers := s.handlers[s.nextHandler := Holding(kind, id, taken.result.value)],
          nextHandler := s.nextHandler + 1),
             Took(kind, id, taken.result.value, s.nextHandler, now))
  }

  // ok: what the WebAuthn library and the passkey store answer
  function HandlerStep(s: Service, h: nat, a: Action): Service
    requires h in s.handlers
  {
    var stage := s.handlers[h];
    match a
    case Verify(_, ok) =>
      if !stage.Holding? then s
      else if ok then s.(handlers := s.handlers[h := Verified(stage.kind, stage.id, stage.ceremony)])
      else Drop(s, h)
    case ConsultStore(_, ok) =>
      if !stage.Verified? then s
      else if !ok then Drop(s, h)
      else if stage.kind == Authentication then s.(handlers := s.handlers[h := Cleared(stage.kind, stage.id)])
      else if stage.ceremony.payload in s.invites then
        Record(s.(invites := s.invites - {stage.ceremony.payload},
            handlers := s.handlers[h := Cleared(stage.kind, stage.id)]),
               InviteConsumed(h, stage.id, stage.ceremony.payload))
      else Drop(s, h)
    case CreateSession(_, ok) =>
      if !stage.Cleared? then s
      else if ok then Record(Drop(s, h), SessionIssued(stage.kind, stage.id, h))
      else Drop(s, h)
    case _ => s
  }

  function Step(s: Service, a: Action): Service {
    match a
    case Start(kind, c, now, freshId) => StartStep(s, kind, c, now, freshId)
    case BeginFinish(kind, id, now) => BeginStep(s, kind, id, now)
    case Verify(h, _) => if h in s.handlers then HandlerStep(s, h, a) else s
    case ConsultStore(h, _) => if h in s.handlers then HandlerStep(s, h, a) else s
    case CreateSession(h, _) => if h in s.handlers then HandlerStep(s, h, a) else s
  }

  function Run(invites: set<string>, actions: seq<Action>): Service {
    if |actions| == 0 then Initial(invites)
    else Step(Run(invites, actions[..|actions| - 1]), actions[|actions| - 1])
  }

  ghost predicate IdsAreFresh(invites: set<string>, actions: seq<Action>)
    decreases |actions|
  {
    |actions| > 0 ==>
      var before, a := actions[..|actions| - 1], actions[|actions| - 1];
      && IdsAreFresh(invites, before)
      && (a.Start? ==> FreshId(Run(invites, before).log, a.kind, a.freshId))
  }

  // ---------- bounded ----------

  ghost predicate Bounded(s: Service) {
    && (forall kind :: kind in s.tables ==> |s.tables[kind]| <= MAX_PENDING)
    && (forall i :: 0 <= i < |s.log| && s.log[i].Refused? ==> s.log[i].unexpired == MAX_PENDING)
  }

  lemma StartBounded(s: Service, kind: Kind, c: Ceremony, now: int, freshId: string)
    requires Bounded(s)
    ensures Bounded(StartStep(s, kind, c, now, freshId))
  {
    StoreStaysBounded(TableOf(s, kind), c, now, freshId);
    hide Unexpired;
  }

  // Taking removes the entry whatever the answer, and changes nothing else.
  lemma TakeShape(t: Table, id: string, now: int)
    ensures var r := Take(t, id, now);
            && |r.table| <= |t| && id !in r.table
            && (forall other :: other in r.table ==> other in t && r.table[other] == t[other])
            && (forall other :: other in t && other != id ==> other in r.table)
            && (r.result.Ok? <==> id in t && now < t[id].expiresAt)
            && (r.result.Ok? ==> r.result.value == t[id])
  {
    RemoveShrinks(t, id);
  }

  lemma BeginBounded(s: Service, kind: Kind, id: string, now: int)
    requires Bounded(s)
    ensures Bounded(BeginStep(s, kind, id, now))
  {
    hide Take;
    TakeShape(TableOf(s, kind), id, now);
  }

  lemma HandlerBounded(s: Service, h: nat, a: Action)
    requires Bounded(s) && h in s.handlers
    ensures Bounded(HandlerStep(s, h, a))
  {
  }

  lemma StepStaysBounded(s: Service, a: Action)
    requires Bounded(s)
    ensures Bounded(Step(s, a))
  {
    hide Bounded, StartStep, BeginStep, HandlerStep;
    match a
    case Start(kind, c, now, freshId) => StartBounded(s, kind, c, now, freshId);
    case BeginFinish(kind, id, now) => BeginBounded(s, kind, id, now);
    case Verify(h, _) => if h in s.handlers { HandlerBounded(s, h, a); }
    case ConsultStore(h, _) => if h in s.handlers { HandlerBounded(s, h, a); }
    case CreateSession(h, _) => if h in s.handlers { HandlerBounded(s, h, a); }
  }

  // Over every run each table holds at most 256 entries, and every refusal
  // happened with 256 unexpired ones pending.
  lemma {:induction false} TablesStayBounded(invites: set<string>, actions: seq<Action>)
    ensures Bounded(Run(invites, actions))
  {
    if |actions| > 0 {
      TablesStayBounded(invites, actions[..|actions| - 1]);
      StepStaysBounded(Run(invites, actions[..|actions| - 1]), actions[|actions| - 1]);
    }
  }

  // ---------- single use ----------

  predicate TakesFrom(e: Event, kind: Kind, id: string) {
    (e.Took? || e.TakeFailed?) && e.kind == kind && e.id == id
  }

  // The ceremony issued under an id and not asked for since
  function Standing(log: seq<Event>, kind: Kind, id: string): Option<Ceremony> {
    if |log| == 0 then None
    else StandingAfter(log[|log| - 1], Standing(log[..|log| - 1], kind, id), kind, id)
  }

  function StandingAfter(e: Event, before: Option<Ceremony>, kind: Kind, id: string): Option<Ceremony> {
    if e.Issued? && e.kind == kind && e.id == id then Some(e.ceremony)
    else if TakesFrom(e, kind, id) then None
    else before
  }

  predicate DoneBy(e: Event, h: nat) {
    (e.Took? || e.InviteConsumed? || e.SessionIssued?) && e.handler == h
  }

  // The last thing a finish handler did
  function LastOf(log: seq<Event>, h: nat): Option<Event> {
    if |log| == 0 then None
    else if DoneBy(log[|log| - 1], h) then Some(log[|log| - 1])
    else LastOf(log[..|log| - 1], h)
  }

  ghost predicate Unconsumed(log: seq<Event>, invite: string) {
    forall i :: 0 <= i < |log| && log[i].InviteConsumed? ==> log[i].invite != invite
  }

  // What a handler must have done just before a session is created
  predicate MayIssue(last: Option<Event>, kind: Kind, id: string) {
    last.Some? &&
    match kind
    case Authentication => last.value.Took? && last.value.kind == kind && last.value.id == id
    case Registration => last.value.InviteConsumed? && last.value.id == id
  }

  ghost predicate Admissible(log: seq<Event>, e: Event) {
    match e
    case Issued(kind, id, _) => FreshId(log, kind, id)
    case Took(kind, id, c, h, now) => Standing(log, kind, id) == Some(c) && now < c.expiresAt && LastOf(log, h).None?
    case InviteConsumed(h, id, invite) =>
      && LastOf(log, h).Some? && LastOf(log, h).value.Took? && LastOf(log, h).value.kind == Registration
      && LastOf(log, h).value.id == id && LastOf(log, h).value.ceremony.payload == invite
      && Unconsumed(log, invite)
    case SessionIssued(kind, id, h) => MayIssue(LastOf(log, h), kind, id)
    case _ => true
  }

  ghost predicate Orderly(log: seq<Event>) {
    forall i :: 0 <= i < |log| ==> Admissible(log[..i], log[i])
  }

  // ---------- the log and the state agree ----------

  predicate StageMatches(stage: Stage, last: Option<Event>) {
    match stage
    case Holding(kind, id, c) => HasTaken(last, kind, id, c)
    case Verified(kind, id, c) => HasTaken(last, kind, id, c)
    case Cleared(kind, id) => MayIssue(last, kind, id)
  }

  predicate HasTaken(last: Option<Event>, kind: Kind, id: string, c: Ceremony) {
    last.Some? && last.value.Took? && last.value.kind == kind && last.value.id == id && last.value.ceremony == c
  }

  ghost predicate TablesMatch(s: Service) {
    forall kind, id :: id in TableOf(s, kind) ==> Standing(s.log, kind, id) == Some(TableOf(s, kind)[id])
  }

  ghost predicate HandlersMatch(s: Service) {
    && (forall h: nat :: h in s.handlers ==> h < s.nextHandler && StageMatches(s.handlers[h], LastOf(s.log, h)))
    && (forall h: nat :: h >= s.nextHandler ==> LastOf(s.log, h).None?)
  }

  ghost predicate InvitesMatch(s: Service) {
    forall invite :: invite in s.invites ==> Unconsumed(s.log, invite)
  }

  ghost predicate Sound(s: Service) {
    TablesMatch(s) && HandlersMatch(s) && InvitesMatch(s) && Orderly(s.log)
  }

  lemma AppendScans(log: seq<Event>, e: Event)
    ensures forall kind, id :: Standing(log + [e], kind, id) == StandingAfter(e, Standing(log, kind, id), kind, id)
    ensures forall h: nat :: LastOf(log + [e], h) == if DoneBy(e, h) then Some(e) else LastOf(log, h)
    ensures forall invite ::
              Unconsumed(log + [e], invite) <==> Unconsumed(log, invite) && !(e.InviteConsumed? && e.invite == invite)
  {
    assert (log + [e])[..|log|] == log;
    forall invite
      ensures Unconsumed(log + [e], invite) <==> Unconsumed(log, invite) && !(e.InviteConsumed? && e.invite == invite)
    {
      if Unconsumed(log + [e], invite) {
        assert (log + [e])[|log|] == e;
        assert forall i :: 0 <= i < |log| ==> (log + [e])[i] == log[i];
      }
    }
  }

  lemma AppendOrderly(log: seq<Event>, e: Event)
    requires Orderly(log) && Admissible(log, e)
    ensures Orderly(log + [e])
  {
    hide Admissible;
    forall i | 0 <= i < |log + [e]| ensures Admissible((log + [e])[..i], (log + [e])[i]) {
      assert (log + [e])[..i] == log[..i];
      assert i == |log| ==> log[..i] == log;
    }
  }

  // Nothing enters a table but the new ceremony.
  lemma StoreShape(t: Table, c: Ceremony, now: int, freshId: string)
    ensures var r := Store(t, c, now, freshId);
            forall id :: id in r.table
                ==> (id in t && r.table[id] == t[id]) || (r.result.Ok? && id == freshId && r.table[id] == c)
    ensures var r := Store(t, c, now, freshId);
            r.result.Ok? ==> freshId in r.table && r.table[freshId] == c
  {
  }

  lemma StartSound(s: Service, kind: Kind, c: Ceremony, now: int, freshId: string)
    requires Sound(s) && FreshId(s.log, kind, freshId)
    ensures Sound(StartStep(s, kind, c, now, freshId))
  {
    hide Standing, LastOf, Orderly, Unconsumed, FreshId, Store, Unexpired;
    StoreShape(TableOf(s, kind), c, now, freshId);
    var next := StartStep(s, kind, c, now, freshId);
    var e := next.log[|s.log|];
    assert next.log == s.log + [e];
    AppendScans(s.log, e);
    AppendOrderly(s.log, e);
  }

  function BeginEvent(s: Service, kind: Kind, id: string, now: int): Event {
    var r := Take(TableOf(s, kind), id, now).result;
    if r.Err? then TakeFailed(kind, id) else Took(kind, id, r.value, s.nextHandler, now)
  }

  lemma BeginAdmissible(s: Service, kind: Kind, id: string, now: int)
    requires TablesMatch(s) && HandlersMatch(s)
    ensures BeginStep(s, kind, id, now).log == s.log + [BeginEvent(s, kind, id, now)]
    ensures Admissible(s.log, BeginEvent(s, kind, id, now))
  {
    hide Standing, LastOf, Unconsumed, FreshId, Take, StageMatches;
    TakeShape(TableOf(s, kind), id, now);
  }

  lemma BeginSound(s: Service, kind: Kind, id: string, now: int)
    requires Sound(s)
    ensures Sound(BeginStep(s, kind, id, now))
  {
    hide Standing, LastOf, Orderly, Unconsumed, FreshId, Take, Admissible;
    TakeShape(TableOf(s, kind), id, now);
    BeginAdmissible(s, kind, id, now);
    var e := BeginEvent(s, kind, id, now);
    AppendScans(s.log, e);
    AppendOrderly(s.log, e);
  }

  lemma HandlerSound(s: Service, h: nat, a: Action)
    requires Sound(s) && h in s.handlers
    ensures Sound(HandlerStep(s, h, a))
  {
    hide Standing, LastOf, Orderly, Unconsumed, FreshId;
    var next := HandlerStep(s, h, a);
    if next.log != s.log {
      var e := next.log[|s.log|];
      assert next.log == s.log + [e];
      AppendScans(s.log, e);
      AppendOrderly(s.log, e);
    }
  }

  lemma StepSound(s: Service, a: Action)
    requires Sound(s) && (a.Start? ==> FreshId(s.log, a.kind, a.freshId))
    ensures Sound(Step(s, a))
  {
    hide Sound, StartStep, BeginStep, HandlerStep, FreshId;
    match a
    case Start(kind, c, now, freshId) => StartSound(s, kind, c, now, freshId);
    case BeginFinish(kind, id, now) => BeginSound(s, kind, id, now);
    case Verify(h, _) => if h in s.handlers { HandlerSound(s, h, a); }
    case ConsultStore(h, _) => if h in s.handlers { HandlerSound(s, h, a); }
    case CreateSession(h, _) => if h in s.handlers { HandlerSound(s, h, a); }
  }

  lemma {:induction false} RunIsSound(invites: set<string>, actions: seq<Action>)
    requires IdsAreFresh(invites, actions)
    ensures Sound(Run(invites, actions))
  {
    if |actions| > 0 {
      hide Sound, Step;
      RunIsSound(invites, actions[..|actions| - 1]);
      StepSound(Run(invites, actions[..|actions| - 1]), actions[|actions| - 1]);
    }
  }

  // ---------- what the log then says ----------

  lemma {:induction false} StandingMeans(log: seq<Event>, kind: Kind, id: string) returns (i: nat)
    requires Standing(log, kind, id).Some?
    ensures i < |log| && log[i] == Issued(kind, id, Standing(log, kind, id).value)
    ensures forall k :: i < k < |log| ==> !TakesFrom(log[k], kind, id)
  {
    var e := log[|log| - 1];
    if e.Issued? && e.kind == kind && e.id == id {
      i := |log| - 1;
    } else {
      i := StandingMeans(log[..|log| - 1], kind, id);
    }
  }

  // A finish handler gets the very ceremony stored under its id, unexpired, and
  // nobody asked for that id since it was issued.
  lemma TakeYieldsOwnCeremony(invites: set<string>, actions: seq<Action>, j: nat) returns (i: nat)
    requires IdsAreFresh(invites, actions)
    requires j < |Run(invites, actions).log| && Run(invites, actions).log[j].Took?
    ensures var log := Run(invites, actions).log;
            && i < j && log[i] == Issued(log[j].kind, log[j].id, log[j].ceremony)
            && log[j].now < log[j].ceremony.expiresAt
            && forall k :: i < k < j ==> !TakesFrom(log[k], log[j].kind, log[j].id)
  {
    hide Run, Standing, LastOf, TablesMatch, HandlersMatch, InvitesMatch, IdsAreFresh;
    RunIsSound(invites, actions);
    var log := Run(invites, actions).log;
    assert Admissible(log[..j], log[j]);
    i := StandingMeans(log[..j], log[j].kind, log[j].id);
    assert forall k :: i < k < j ==> log[..j][k] == log[k];
  }

  lemma LaterIdDiffers(log: seq<Event>, i: nat, j: nat)
    requires Orderly(log) && i < j < |log| && log[i].Issued? && log[j].Issued? && log[i].kind == log[j].kind
    ensures log[i].id != log[j].id
  {
    hide Standing, LastOf;
    assert Admissible(log[..j], log[j]);
    assert log[..j][i] == log[i];
  }

  lemma IssuedOnce(log: seq<Event>, i: nat, j: nat)
    requires Orderly(log) && i < |log| && j < |log|
    requires log[i].Issued? && log[j].Issued? && log[i].kind == log[j].kind && log[i].id == log[j].id
    ensures i == j
  {
    hide Orderly;
    if i < j {
      LaterIdDiffers(log, i, j);
    } else if j < i {
      LaterIdDiffers(log, j, i);
    }
  }

  // Asking for an issued id burns it, whatever the answer: no later take succeeds.
  lemma AnyTakeBurns(invites: set<string>, actions: seq<Action>, i: nat, k: nat, j: nat)
    requires IdsAreFresh(invites, actions)
    requires var log := Run(invites, actions).log;
             i < k < j < |log| && log[i].Issued? && TakesFrom(log[k], log[i].kind, log[i].id)
    ensures var log := Run(invites, actions).log;
            !(log[j].Took? && log[j].kind == log[i].kind && log[j].id == log[i].id)
  {
    hide Run, TablesMatch, HandlersMatch, InvitesMatch, IdsAreFresh, Orderly;
    var log := Run(invites, actions).log;
    if log[j].Took? && log[j].kind == log[i].kind && log[j].id == log[i].id {
      var origin := TakeYieldsOwnCeremony(invites, actions, j);
      RunIsSound(invites, actions);
      IssuedOnce(log, i, origin);
    }
  }

  // An id yields its ceremony at most once.
  lemma SingleUse(invites: set<string>, actions: seq<Action>, i: nat, j: nat)
    requires IdsAreFresh(invites, actions)
    requires var log := Run(invites, actions).log;
             i < |log| && j < |log| && log[i].Took? && log[j].Took? && log[i].kind == log[j].kind
                 && log[i].id == log[j].id
    ensures i == j
  {
    hide Run, TablesMatch, HandlersMatch, InvitesMatch, IdsAreFresh, Orderly;
    if i != j {
      var early, late := if i < j then i else j, if i < j then j else i;
      var origin := TakeYieldsOwnCeremony(invites, actions, early);
      AnyTakeBurns(invites, actions, origin, early, late);
    }
  }

  lemma {:induction false} LastOfIsLast(log: seq<Event>, h: nat)
    ensures var last := LastOf(log, h);
            if last.None? then forall i :: 0 <= i < |log| ==> !DoneBy(log[i], h)
            else exists k :: 0 <= k < |log| && log[k] == last.value && DoneBy(log[k], h)
  {
    if |log| > 0 && !DoneBy(log[|log| - 1], h) {
      LastOfIsLast(log[..|log| - 1], h);
    }
  }

  // A session goes back to the take of its own ceremony by the same handler.
  lemma SessionHasTake(log: seq<Event>, j: nat) returns (take: nat)
    requires Orderly(log) && j < |log| && log[j].SessionIssued?
    ensures take < j && log[take].Took? && log[take].handler == log[j].handler
    ensures log[take].kind == log[j].kind && log[take].id == log[j].id
  {
    hide Standing, LastOf;
    var h := log[j].handler;
    assert Admissible(log[..j], log[j]);
    LastOfIsLast(log[..j], h);
    var k :| 0 <= k < j && log[..j][k] == LastOf(log[..j], h).value && DoneBy(log[..j][k], h);
    if log[j].kind == Authentication {
      take := k;
    } else {
      assert Admissible(log[..k], log[k]);
      LastOfIsLast(log[..k], h);
      var l :| 0 <= l < k && log[..k][l] == LastOf(log[..k], h).value && DoneBy(log[..k][l], h);
      take := l;
    }
  }

  lemma {:induction false} NothingAfterSession(log: seq<Event>, i: nat, j: nat)
    requires Orderly(log) && i < j <= |log| && log[i].SessionIssued?
    ensures LastOf(log[..j], log[i].handler) == Some(log[i])
  {
    assert log[..j][..j - 1] == log[..j - 1];
    if i < j - 1 {
      NothingAfterSession(log, i, j - 1);
      hide Standing, FreshId, Unconsumed;
      assert Admissible(log[..j - 1], log[j - 1]);
    }
  }

  // Distinct sessions consumed distinct ceremonies.
  lemma SessionsAreDistinct(invites: set<string>, actions: seq<Action>, i: nat, j: nat)
    requires IdsAreFresh(invites, actions)
    requires var log := Run(invites, actions).log;
             && i < |log| && j < |log| && log[i].SessionIssued? && log[j].SessionIssued?
             && log[i].kind == log[j].kind && log[i].id == log[j].id
    ensures i == j
  {
    hide Run, TablesMatch, HandlersMatch, InvitesMatch, IdsAreFresh;
    if i != j {
      var early, late := if i < j then i else j, if i < j then j else i;
      RunIsSound(invites, actions);
      var log := Run(invites, actions).log;
      var take := SessionHasTake(log, early);
      var take' := SessionHasTake(log, late);
      SingleUse(invites, actions, take, take');
      assert Admissible(log[..late], log[late]);
      NothingAfterSession(log, early, late);
    }
  }

  // An invite is consumed by the handler that took a registration naming it.
  lemma InviteHasTake(log: seq<Event>, k: nat) returns (take: nat)
    requires Orderly(log) && k < |log| && log[k].InviteConsumed?
    ensures take < k && log[take].Took? && log[take].kind == Registration && log[take].handler == log[k].handler
    ensures log[take].id == log[k].id && log[take].ceremony.payload == log[k].invite
  {
    hide Standing, LastOf;
    assert Admissible(log[..k], log[k]);
    LastOfIsLast(log[..k], log[k].handler);
    take :| 0 <= take < k && log[..k][take] == LastOf(log[..k], log[k].handler).value
        && DoneBy(log[..k][take], log[k].handler);
  }

  lemma LaterInviteDiffers(log: seq<Event>, i: nat, k: nat)
    requires Orderly(log) && i < k < |log| && log[i].InviteConsumed? && log[k].InviteConsumed?
    ensures log[i].invite != log[k].invite
  {
    hide Standing, LastOf;
    assert Admissible(log[..k], log[k]);
    assert log[..k][i] == log[i];
  }

  // Behind every registration session its handler took a registration under the
  // session's id and then consumed the very invite that registration was issued
  // for; no invite is consumed twice.
  lemma RegistrationConsumesInvite(invites: set<string>, actions: seq<Action>, j: nat) returns (take: nat, k: nat)
    requires IdsAreFresh(invites, actions)
    requires var log := Run(invites, actions).log;
             j < |log| && log[j].SessionIssued? && log[j].kind == Registration
    ensures var log := Run(invites, actions).log;
            && take < k < j && log[take].Took? && log[k].InviteConsumed?
            && log[take].kind == Registration && log[take].id == log[k].id == log[j].id
            && log[take].handler == log[k].handler == log[j].handler
            && log[k].invite == log[take].ceremony.payload
            && forall i :: 0 <= i < |log| && i != k && log[i].InviteConsumed? ==> log[i].invite != log[k].invite
  {
    hide Run, Standing, LastOf, TablesMatch, HandlersMatch, InvitesMatch, IdsAreFresh;
    RunIsSound(invites, actions);
    var log := Run(invites, actions).log;
    assert Admissible(log[..j], log[j]);
    LastOfIsLast(log[..j], log[j].handler);
    k :| 0 <= k < j && log[..j][k] == LastOf(log[..j], log[j].handler).value && DoneBy(log[..j][k], log[j].handler);
    take := InviteHasTake(log, k);
    forall i | 0 <= i < |log| && i != k && log[i].InviteConsumed? ensures log[i].invite != log[k].invite {
      if i < k {
        LaterInviteDiffers(log, i, k);
      } else {
        LaterInviteDiffers(log, k, i);
      }
    }
  }
}
