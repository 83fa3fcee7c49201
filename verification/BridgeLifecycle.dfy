/** Channel adapters across hot reloads: the kernel's map of adapters and the
    bridge manager's list own the same objects. Every Arc that is cloned or
    dropped is booked in a ghost ledger, and the ledger refuses to release the
    last owner of a running adapter that has not been asked to stop. */
module BridgeLifecycle {

  // One adapter object and the name it reports
  datatype Adapter = Adapter(id: nat, name: string)

  // Who is counted, who is running, who has been asked to stop
  datatype Owners = Owners(refs: multiset<Adapter>, started: set<Adapter>, asked: set<Adapter>)

  // The ledger of Arc clones and drops. It also remembers every adapter that
  // lost its last owner while running and before anyone asked it to stop.
  class Arcs {
    ghost var now: Owners
    ghost var orphaned: set<Adapter>

    ghost predicate Valid()
      reads this
    {
      orphaned == {}
    }

    constructor ()
      ensures Valid() && now == Owners(multiset{}, {}, {})
    {
      now := Owners(multiset{}, {}, {});
      orphaned := {};
    }

    // Arc::new
    ghost method New(a: Adapter)
      modifies this`now
      ensures now == old(now).(refs := old(now.refs) + multiset{a})
    {
      now := now.(refs := now.refs + multiset{a});
    }

    // Arc::clone, which needs an owner to clone from
    ghost method Clone(a: Adapter)
      requires a in now.refs
      modifies this`now
      ensures now == old(now).(refs := old(now.refs) + multiset{a})
    {
      now := now.(refs := now.refs + multiset{a});
    }

    // Dropping an Arc; dropping the last one of a running adapter is only
    // harmless once stop() was called
    ghost method Drop(a: Adapter)
      requires a in now.refs
      modifies this
      ensures now == old(now).(refs := old(now.refs) - multiset{a})
      ensures orphaned == old(orphaned) + (if old(now.refs)[a] == 1 && a in now.started - now.asked then {a} else {})
    {
      if now.refs[a] == 1 && a in now.started - now.asked {
        orphaned := orphaned + {a};
      }
      now := now.(refs := now.refs - multiset{a});
    }

    // start() returned Ok
    ghost method Started(a: Adapter)
      requires a in now.refs
      modifies this`now
      ensures now == old(now).(started := old(now.started) + {a})
    {
      now := now.(started := now.started + {a});
    }

    // stop() was called; whether it succeeds or times out makes no difference
    ghost method AskToStop(a: Adapter)
      requires a in now.refs
      modifies this`now
      ensures now == old(now).(asked := old(now.asked) + {a})
    {
      now := now.(asked := now.asked + {a});
    }
  }

  // ---------- BridgeManager ----------

  class BridgeManager {
    var adapters: seq<Adapter>
    // One dispatch task per adapter; each holds its own clone until it is joined
    var tasks: seq<Adapter>
    var shutdownSent: bool

    ghost predicate Valid()
      reads this
    {
      adapters == tasks
    }

    // What this manager contributes to the ledger
    ghost function Held(): multiset<Adapter>
      reads this
    {
      multiset(adapters) + multiset(tasks)
    }

    constructor ()
      ensures Valid() && adapters == [] && Held() == multiset{} && !shutdownSent
    {
      adapters, tasks, shutdownSent := [], [], false;
    }

    // Takes over the caller's Arc; on failure that Arc is dropped here.
    method StartAdapter(adapter: Adapter, startOk: bool, arcs: Arcs, ghost rest: multiset<Adapter>)
      requires Valid() && arcs.Valid()
      requires arcs.now.refs == rest + Held() + multiset{adapter} && adapter !in arcs.now.started
      modifies this, arcs
      ensures Valid() && arcs.Valid() && shutdownSent == old(shutdownSent)
      ensures adapters == old(adapters) + (if startOk then [adapter] else [])
      ensures arcs.now == Owners(rest + Held(),
                                 old(arcs.now.started) + (if startOk then {adapter} else {}),
                                 old(arcs.now.asked))
    {
      if !startOk {
        arcs.Drop(adapter);
        return;
      }
      arcs.Started(adapter);
      arcs.Clone(adapter);
      adapters := adapters + [adapter];
      tasks := tasks + [adapter];
    }

    // Ask everyone, join the dispatch tasks, and only then let the Arcs go.
    method StopWithDeadline(arcs: Arcs, ghost rest: multiset<Adapter>)
      requires Valid() && arcs.Valid()
      requires arcs.now.refs == rest + Held()
      modifies this, arcs
      ensures Valid() && arcs.Valid() && shutdownSent
      ensures adapters == [] && Held() == multiset{}
      ensures arcs.now == Owners(rest, old(arcs.now.started), old(arcs.now.asked) + AdapterSet(old(adapters)))
    {
      AskAll(arcs);
      shutdownSent := true;
      ghost var all := adapters;
      ReleaseAll(tasks, arcs);
      tasks := [];
      ReleaseAll(adapters, arcs);
      adapters := [];
      assert rest + (multiset(all) + multiset(all)) - multiset(all) - multiset(all) == rest;
    }

    method AskAll(arcs: Arcs)
      requires Valid() && arcs.Valid() && Held() <= arcs.now.refs
      modifies arcs
      ensures arcs.Valid()
      ensures arcs.now == old(arcs.now).(asked := old(arcs.now.asked) + AdapterSet(adapters))
    {
      for k := 0 to |adapters|
        invariant arcs.Valid()
        invariant arcs.now == old(arcs.now).(asked := old(arcs.now.asked) + AdapterSet(adapters[..k]))
      {
        assert adapters[k] in multiset(adapters);
        assert AdapterSet(adapters[..k + 1]) == AdapterSet(adapters[..k]) + {adapters[k]};
        arcs.AskToStop(adapters[k]);
      }
      assert adapters[..|adapters|] == adapters;
    }
  }

  ghost function AdapterSet(s: seq<Adapter>): set<Adapter> {
    set a | a in s
  }

  // Dropping a vector of Arcs whose owners have all been asked to stop
  method ReleaseAll(list: seq<Adapter>, arcs: Arcs)
    requires arcs.Valid() && multiset(list) <= arcs.now.refs
    requires forall a :: a in list ==> a in arcs.now.asked
    modifies arcs
    ensures arcs.Valid()
    ensures arcs.now == old(arcs.now).(refs := old(arcs.now.refs) - multiset(list))
  {
    for k := 0 to |list|
      invariant arcs.Valid()
      invariant arcs.now == old(arcs.now).(refs := old(arcs.now.refs) - multiset(list[..k]))
    {
      ReleaseStep(old(arcs.now.refs), list, k);
      arcs.Drop(list[k]);
    }
    assert list[..|list|] == list;
  }

  lemma ReleaseStep(refs: multiset<Adapter>, list: seq<Adapter>, k: nat)
    requires k < |list| && multiset(list) <= refs
    ensures list[k] in refs - multiset(list[..k])
    ensures refs - multiset(list[..k]) - multiset{list[k]} == refs - multiset(list[..k + 1])
  {
    assert list[..k + 1] == list[..k] + [list[k]];
    assert list == list[..k + 1] + list[k + 1..];
    assert multiset(list) == multiset(list[..k]) + multiset{list[k]} + multiset(list[k + 1..]);
  }

  // ---------- the kernel's map of adapters ----------

  type AdapterMap = map<string, Adapter>

  // Every entry is filed under its adapter's own name.
  ghost predicate Named(m: AdapterMap) {
    forall n :: n in m ==> m[n].name == n
  }

  lemma InsertValues(m: AdapterMap, a: Adapter)
    requires Named(m) && a !in m.Values
    ensures Named(m[a.name := a]) && m[a.name := a].Values <= m.Values + {a}
    ensures multiset(m[a.name := a].Values)
         == multiset(m.Values) - (if a.name in m then multiset{m[a.name]} else multiset{}) + multiset{a}
  {
    var m' := m[a.name := a];
    forall v ensures v in m'.Values <==> v == a || (v in m.Values && !(a.name in m && v == m[a.name])) {
      if v in m.Values {
        assert v.name in m && m[v.name] == v;
      }
      if v == a || (v in m.Values && v.name != a.name) {
        assert m'[v.name] == v;
      }
    }
  }

  lemma RemoveValues(m: AdapterMap, n: string)
    requires Named(m) && n in m
    ensures Named(m - {n}) && (m - {n}).Values <= m.Values
    ensures multiset((m - {n}).Values) == multiset(m.Values) - multiset{m[n]}
  {
    var m' := m - {n};
    forall v ensures v in m'.Values <==> v in m.Values && v != m[n] {
      if v in m.Values && v != m[n] {
        assert v.name in m && m[v.name] == v;
        assert m'[v.name] == v;
      }
    }
  }

  lemma RemoveOne(rest: multiset<Adapter>, held: multiset<Adapter>, a: Adapter)
    requires a in held
    ensures a in rest + held && rest + held - multiset{a} == rest + (held - multiset{a})
  {
  }

  lemma KeptWithout(m: AdapterMap, n: string, keep: set<string>)
    requires n !in keep
    ensures Kept(m - {n}, keep) == Kept(m, keep)
  {
  }

  lemma InsertBooks(rest: multiset<Adapter>, held: multiset<Adapter>, a: Adapter, replaced: set<Adapter>)
    requires a in rest
    ensures a in rest + held
    ensures forall r :: r in replaced && r in held ==>
              && r in rest + held + multiset{a}
              && (r in rest ==> (rest + held + multiset{a})[r] > 1)
              && rest + held + multiset{a} - multiset{r} == rest + (held - multiset{r} + multiset{a})
    ensures rest + held + multiset{a} == rest + (held - multiset{} + multiset{a})
  {
  }

  class Kernel {
    var channelAdapters: AdapterMap

    constructor ()
      ensures channelAdapters == map[]
    {
      channelAdapters := map[];
    }

    // What the map contributes to the ledger
    ghost function Held(): multiset<Adapter>
      reads this
    {
      multiset(channelAdapters.Values)
    }

    // DashMap::insert: the entriess new Arc is a clone, the replaced one is dropped.
    method Insert(adapter: Adapter, arcs: Arcs, ghost rest: multiset<Adapter>)
      requires Named(channelAdapters) && adapter !in channelAdapters.Values
      requires arcs.Valid() && arcs.now.refs == rest + Held() && adapter in rest
      requires forall a :: a in arcs.now.started && a !in arcs.now.asked ==> a in rest
      modifies this, arcs
      ensures Named(channelAdapters) && channelAdapters == old(channelAdapters)[adapter.name := adapter]
      ensures channelAdapters.Values <= old(channelAdapters.Values) + {adapter}
      ensures arcs.Valid()
      ensures arcs.now == old(arcs.now).(refs := rest + Held())
    {
      var replaced := if adapter.name in channelAdapters then {channelAdapters[adapter.name]} else {};
      assert adapter.name in channelAdapters ==> channelAdapters[adapter.name] in channelAdapters.Values;
      InsertValues(channelAdapters, adapter);
      InsertBooks(rest, Held(), adapter, replaced);
      arcs.Clone(adapter);
      channelAdapters := channelAdapters[adapter.name := adapter];
      if replaced != {} {
        var dropped :| dropped in replaced;
        arcs.Drop(dropped);
      }
    }

    // DashMap::remove; the Arc it hands out is dropped after an optional stop().
    method Remove(name: string, stopFirst: bool, arcs: Arcs, ghost rest: multiset<Adapter>)
      requires Named(channelAdapters) && name in channelAdapters
      requires arcs.Valid() && arcs.now.refs == rest + Held()
      requires stopFirst || channelAdapters[name] !in arcs.now.started
      modifies this, arcs
      ensures Named(channelAdapters) && channelAdapters == old(channelAdapters) - {name}
      ensures channelAdapters.Values <= old(channelAdapters.Values)
      ensures arcs.Valid()
      ensures arcs.now.refs == rest + Held() && arcs.now.started == old(arcs.now.started)
      ensures arcs.now.asked == old(arcs.now.asked) + (if stopFirst then {old(channelAdapters)[name]} else {})
    {
      var adapter := channelAdapters[name];
      RemoveValues(channelAdapters, name);
      RemoveOne(rest, Held(), adapter);
      channelAdapters := channelAdapters - {name};
      if stopFirst {
        arcs.AskToStop(adapter);
      }
      arcs.Drop(adapter);
    }

    // Each stale adapter is asked to stop while the entriess Arc is still in hand.
    method EvictStale(keep: set<string>, arcs: Arcs, ghost rest: multiset<Adapter>)
      requires Named(channelAdapters)
      requires arcs.Valid() && arcs.now.refs == rest + Held()
      modifies this, arcs
      ensures Named(channelAdapters) && channelAdapters == Kept(old(channelAdapters), keep)
      ensures forall n :: n in channelAdapters <==> n in old(channelAdapters) && n in keep
      ensures forall n :: n in channelAdapters ==> channelAdapters[n] == old(channelAdapters)[n]
      ensures arcs.Valid()
      ensures arcs.now.refs == rest + Held()
      ensures arcs.now.started == old(arcs.now.started) && old(arcs.now.asked) <= arcs.now.asked
      ensures forall n :: n in old(channelAdapters) && n !in keep ==> old(channelAdapters)[n] in arcs.now.asked
    {
      var stale := channelAdapters.Keys - keep;
      while stale != {}
        invariant stale == channelAdapters.Keys - keep
        invariant Named(channelAdapters)
        invariant Kept(channelAdapters, keep) == Kept(old(channelAdapters), keep)
        invariant arcs.Valid()
        invariant arcs.now.refs == rest + Held()
        invariant arcs.now.started == old(arcs.now.started) && old(arcs.now.asked) <= arcs.now.asked
        invariant forall n | n in channelAdapters ::
                    n in old(channelAdapters) && channelAdapters[n] == old(channelAdapters)[n]
        invariant forall n :: n in old(channelAdapters) && n !in keep && n !in channelAdapters
                              ==> old(channelAdapters)[n] in arcs.now.asked
        decreases stale
      {
        var name :| name in stale;
        KeptWithout(channelAdapters, name, keep);
        Remove(name, true, arcs, rest);
        stale := stale - {name};
      }
      KeptSame(channelAdapters, keep);
    }
  }

  lemma KeptSame(m: AdapterMap, keep: set<string>)
    requires m.Keys - keep == {}
    ensures Kept(m, keep) == m
  {
    assert forall n :: n in m.Keys && n !in keep ==> n in m.Keys - keep;
  }

  function Kept(m: AdapterMap, keep: set<string>): AdapterMap {
    map n | n in m && n in keep :: m[n]
  }

  // ---------- what a start computes ----------

  // An adapter of the new configuration and whether its start() will succeed
  datatype Candidate = Candidate(adapter: Adapter, startOk: bool)

  datatype Registry = Registry(kernel: AdapterMap, running: seq<Adapter>)

  function StartOne(r: Registry, c: Candidate): Registry {
    if c.startOk then Registry(r.kernel[c.adapter.name := c.adapter], r.running + [c.adapter])
    else Registry(r.kernel - {c.adapter.name}, r.running)
  }

  function StartAll(kernel: AdapterMap, list: seq<Candidate>): Registry {
    if |list| == 0 then Registry(kernel, [])
    else StartOne(StartAll(kernel, list[..|list| - 1]), list[|list| - 1])
  }

  function Names(list: seq<Candidate>): set<string> {
    set c | c in list :: c.adapter.name
  }

  function Adapters(list: seq<Candidate>): seq<Adapter> {
    seq(|list|, i requires 0 <= i < |list| => list[i].adapter)
  }

  // hasAny is false when the configuration lists no channel it knows how to count
  datatype Plan = Plan(hasAny: bool, list: seq<Candidate>)

  function Effective(plan: Plan): seq<Candidate> {
    if plan.hasAny then plan.list else []
  }

  function Reloaded(kernel: AdapterMap, plan: Plan): Registry {
    StartAll(Kept(kernel, Names(Effective(plan))), Effective(plan))
  }

  // ---------- agreement of the two owners ----------

  // The kernel maps exactly the names of the manager's adapters to those adapters.
  ghost predicate Agree(r: Registry) {
    && (forall a :: a in r.running ==> a.name in r.kernel && r.kernel[a.name] == a)
    && (forall n :: n in r.kernel ==> r.kernel[n] in r.running)
  }

  // No adapter that starts is followed by another of the same name.
  ghost predicate NoneShadowed(list: seq<Candidate>) {
    forall i, j :: 0 <= i < j < |list| && list[i].startOk ==> list[i].adapter.name != list[j].adapter.name
  }

  ghost predicate DistinctAdapters(list: seq<Candidate>) {
    forall i, j :: 0 <= i < j < |list| ==> list[i].adapter != list[j].adapter
  }

  ghost predicate DistinctNames(list: seq<Candidate>) {
    forall i, j :: 0 <= i < j < |list| ==> list[i].adapter.name != list[j].adapter.name
  }

  // The last candidate of each name decides that name's entry.
  ghost predicate Decides(list: seq<Candidate>, i: nat) {
    i < |list| && forall j :: i < j < |list| ==> list[j].adapter.name != list[i].adapter.name
  }

  lemma {:induction false} LastCandidateDecides(kernel: AdapterMap, list: seq<Candidate>, i: nat)
    requires Decides(list, i)
    ensures var r, c := StartAll(kernel, list), list[i];
            if c.startOk then c.adapter.name in r.kernel && r.kernel[c.adapter.name] == c.adapter
            else c.adapter.name !in r.kernel
  {
    if i < |list| - 1 {
      var before := list[..|list| - 1];
      assert Decides(before, i);
      LastCandidateDecides(kernel, before, i);
    }
  }

  lemma {:induction false} UnlistedNamesStay(kernel: AdapterMap, list: seq<Candidate>, n: string)
    requires forall i :: 0 <= i < |list| ==> list[i].adapter.name != n
    ensures n in StartAll(kernel, list).kernel <==> n in kernel
  {
    if |list| > 0 {
      UnlistedNamesStay(kernel, list[..|list| - 1], n);
    }
  }

  lemma {:induction false} RunningAreStarted(kernel: AdapterMap, list: seq<Candidate>, a: Adapter)
    ensures a in StartAll(kernel, list).running
            <==> exists i :: 0 <= i < |list| && list[i].startOk && list[i].adapter == a
  {
    if |list| > 0 {
      RunningAreStarted(kernel, list[..|list| - 1], a);
    }
  }

  lemma {:induction false} SomeCandidateDecides(list: seq<Candidate>, n: string) returns (i: nat)
    requires exists k :: 0 <= k < |list| && list[k].adapter.name == n
    ensures Decides(list, i) && list[i].adapter.name == n
  {
    if list[|list| - 1].adapter.name == n {
      i := |list| - 1;
    } else {
      i := SomeCandidateDecides(list[..|list| - 1], n);
    }
  }

  // Which reloads leave the two owners in agreement, whatever was registered before.
  lemma ReloadAgreesIff(kernel: AdapterMap, plan: Plan)
    requires DistinctAdapters(Effective(plan))
    ensures Agree(Reloaded(kernel, plan)) <==> NoneShadowed(Effective(plan))
  {
    var list := Effective(plan);
    var kept := Kept(kernel, Names(list));
    if NoneShadowed(list) {
      NoShadowingAgrees(kept, list);
    } else {
      ShadowedDisagrees(kept, list);
    }
  }

  lemma NoShadowingAgrees(kernel: AdapterMap, list: seq<Candidate>)
    requires NoneShadowed(list) && kernel.Keys <= Names(list)
    ensures Agree(StartAll(kernel, list))
  {
    var r := StartAll(kernel, list);
    forall a | a in r.running ensures a.name in r.kernel && r.kernel[a.name] == a {
      RunningAreStarted(kernel, list, a);
      var i :| 0 <= i < |list| && list[i].startOk && list[i].adapter == a;
      LastCandidateDecides(kernel, list, i);
    }
    forall n | n in r.kernel ensures r.kernel[n] in r.running {
      if forall i :: 0 <= i < |list| ==> list[i].adapter.name != n {
        UnlistedNamesStay(kernel, list, n);
        assert n in Names(list);
      }
      var i := SomeCandidateDecides(list, n);
      LastCandidateDecides(kernel, list, i);
      RunningAreStarted(kernel, list, list[i].adapter);
    }
  }

  lemma ShadowedDisagrees(kernel: AdapterMap, list: seq<Candidate>)
    requires DistinctAdapters(list) && !NoneShadowed(list)
    ensures !Agree(StartAll(kernel, list))
  {
    var i, j :| 0 <= i < j < |list| && list[i].startOk && list[i].adapter.name == list[j].adapter.name;
    var k := SomeCandidateDecides(list[j..], list[i].adapter.name);
    assert Decides(list, j + k) by {
      assert list[j..][k] == list[j + k];
      forall l | j + k < l < |list| ensures list[l].adapter.name != list[j + k].adapter.name {
        assert list[j..][l - j] == list[l];
      }
    }
    LastCandidateDecides(kernel, list, j + k);
    RunningAreStarted(kernel, list, list[i].adapter);
  }

  // ---------- what the configuration asks for ----------

  // The adapters that start, in the order of the configuration
  function Starters(list: seq<Candidate>): seq<Adapter> {
    if list == [] then []
    else (if list[0].startOk then [list[0].adapter] else []) + Starters(list[1..])
  }

  // A name is registered exactly when the last adapter of that name starts, and with that adapter.
  ghost predicate RegisteredAsListed(kernel: AdapterMap, list: seq<Candidate>) {
    && (forall i: nat :: Decides(list, i) ==> (list[i].adapter.name in kernel <==> list[i].startOk))
    && (forall n :: n in kernel ==>
          exists i: nat :: Decides(list, i) && list[i].adapter == kernel[n] && kernel[n].name == n)
  }

  // Exactly the adapters of the configuration that start are running, in its
  // order; a configuration without a channel leaves nothing running or registered.
  ghost predicate AsPlanned(r: Registry, plan: Plan) {
    if plan.hasAny then r.running == Starters(plan.list) && RegisteredAsListed(r.kernel, plan.list)
    else r.running == [] && r.kernel == map[]
  }

  ghost predicate AreNamesOf(names: seq<string>, adapters: seq<Adapter>) {
    |names| == |adapters| && forall i :: 0 <= i < |names| ==> names[i] == adapters[i].name
  }

  lemma {:induction false} StartersSnoc(list: seq<Candidate>, c: Candidate)
    ensures Starters(list + [c]) == Starters(list) + (if c.startOk then [c.adapter] else [])
  {
    if list == [] {
      assert [] + [c] == [c] && [c][1..] == [];
    } else {
      StartersSnoc(list[1..], c);
      assert (list + [c])[1..] == list[1..] + [c];
    }
  }

  lemma {:induction false} StartAllRunsStarters(kernel: AdapterMap, list: seq<Candidate>)
    ensures StartAll(kernel, list).running == Starters(list)
  {
    if |list| > 0 {
      var before, last := list[..|list| - 1], list[|list| - 1];
      StartAllRunsStarters(kernel, before);
      StartersSnoc(before, last);
      assert list == before + [last];
    }
  }

  lemma EntryIsListed(kernel: AdapterMap, list: seq<Candidate>, n: string) returns (i: nat)
    requires kernel.Keys <= Names(list) && n in StartAll(kernel, list).kernel
    ensures Decides(list, i) && list[i].adapter == StartAll(kernel, list).kernel[n] && list[i].adapter.name == n
  {
    hide StartAll;
    if forall k :: 0 <= k < |list| ==> list[k].adapter.name != n {
      UnlistedNamesStay(kernel, list, n);
      assert n in Names(list);
    }
    i := SomeCandidateDecides(list, n);
    LastCandidateDecides(kernel, list, i);
  }

  lemma StartAllRegisters(kernel: AdapterMap, list: seq<Candidate>)
    requires kernel.Keys <= Names(list)
    ensures RegisteredAsListed(StartAll(kernel, list).kernel, list)
  {
    hide StartAll, Decides, Names;
    var entries := StartAll(kernel, list).kernel;
    forall i: nat | Decides(list, i)
      ensures i < |list| && (list[i].adapter.name in entries <==> list[i].startOk)
    {
      DecidesInList(list, i);
      LastCandidateDecides(kernel, list, i);
    }
    forall n | n in entries
      ensures exists i: nat :: Decides(list, i) && i < |list| && list[i].adapter == entries[n] && entries[n].name == n
    {
      var i := EntryIsListed(kernel, list, n);
      DecidesInList(list, i);
    }
  }

  lemma DecidesInList(list: seq<Candidate>, i: nat)
    requires Decides(list, i)
    ensures i < |list|
  {
  }

  // Whatever was registered before, a reload does what its configuration asks for.
  lemma ReloadFollowsPlan(kernel: AdapterMap, plan: Plan)
    ensures AsPlanned(Reloaded(kernel, plan), plan)
  {
    hide StartOne, RegisteredAsListed;
    if plan.hasAny {
      StartAllRunsStarters(Kept(kernel, Names(plan.list)), plan.list);
      StartAllRegisters(Kept(kernel, Names(plan.list)), plan.list);
    } else {
      NothingToStart(kernel, plan);
      assert Kept(kernel, {}) == map[];
    }
  }

  // ---------- any number of reloads ----------

  function ReloadAll(plans: seq<Plan>): Registry {
    if |plans| == 0 then Registry(map[], [])
    else Reloaded(ReloadAll(plans[..|plans| - 1]).kernel, plans[|plans| - 1])
  }

  // With distinct names the owners agree after every reload of every run.
  lemma {:induction false} RunsAgree(plans: seq<Plan>)
    requires forall k :: 0 <= k < |plans| ==> DistinctNames(plans[k].list)
    ensures Agree(ReloadAll(plans))
  {
    if |plans| > 0 {
      var last := plans[|plans| - 1];
      assert DistinctAdapters(last.list) && DistinctNames(last.list);
      assert DistinctAdapters(Effective(last)) && NoneShadowed(Effective(last));
      ReloadAgreesIff(ReloadAll(plans[..|plans| - 1]).kernel, last);
    }
  }

  // After any sequence of reloads the last configuration alone says what runs.
  lemma LastPlanDecides(plans: seq<Plan>)
    requires |plans| > 0
    ensures AsPlanned(ReloadAll(plans), plans[|plans| - 1])
  {
    ReloadFollowsPlan(ReloadAll(plans[..|plans| - 1]).kernel, plans[|plans| - 1]);
  }

  // ---------- starting and reloading ----------

  ghost predicate BrandNew(o: Owners, list: seq<Adapter>) {
    && (forall i :: 0 <= i < |list| ==> list[i] !in o.refs && list[i] !in o.started && list[i] !in o.asked)
    && (forall i, j :: 0 <= i < j < |list| ==> list[i] != list[j])
  }

  method CreateAdapters(list: seq<Adapter>, arcs: Arcs)
    requires arcs.Valid()
    modifies arcs
    ensures arcs.Valid()
    ensures arcs.now == old(arcs.now).(refs := old(arcs.now.refs) + multiset(list))
  {
    for k := 0 to |list|
      invariant arcs.Valid()
      invariant arcs.now == old(arcs.now).(refs := old(arcs.now.refs) + multiset(list[..k]))
    {
      assert list[..k + 1] == list[..k] + [list[k]];
      arcs.New(list[k]);
    }
    assert list[..|list|] == list;
  }

  lemma NewcomersUnregistered(m: AdapterMap, keep: set<string>, list: seq<Adapter>, o: Owners)
    requires o.refs == multiset(m.Values) && BrandNew(o, list)
    ensures Untouched(list, Kept(m, keep).Values, o.started)
  {
    forall v | v in Kept(m, keep).Values ensures v in o.refs {
      var n :| n in Kept(m, keep) && Kept(m, keep)[n] == v;
      assert m[n] in m.Values;
    }
  }

  // What holds between two candidates of the start loop; pending are still to come
  ghost predicate Starting(kernel: Kernel, manager: BridgeManager, arcs: Arcs, pending: seq<Adapter>)
    reads kernel, manager, arcs
  {
    && arcs.Valid() && manager.Valid() && Named(kernel.channelAdapters)
    && arcs.now.refs == kernel.Held() + manager.Held() + multiset(pending)
    && Untouched(pending, kernel.channelAdapters.Values, arcs.now.started)
    && (forall a :: a in arcs.now.started && a !in arcs.now.asked ==> a in manager.adapters)
  }

  ghost predicate Untouched(pending: seq<Adapter>, registered: set<Adapter>, started: set<Adapter>) {
    && (forall i :: 0 <= i < |pending| ==> pending[i] !in registered && pending[i] !in started)
    && (forall i, j :: 0 <= i < j < |pending| ==> pending[i] != pending[j])
  }

  lemma UntouchedTail(pending: seq<Adapter>, registered: set<Adapter>, started: set<Adapter>,
      registered': set<Adapter>, started': set<Adapter>)
    requires |pending| > 0 && Untouched(pending, registered, started)
    requires registered' <= registered + {pending[0]} && started' <= started + {pending[0]}
    ensures Untouched(pending[1..], registered', started')
  {
  }

  // Register in the kernel's map, start, and take the registration back if the start fails.
  method StartCandidate(kernel: Kernel, manager: BridgeManager, arcs: Arcs, c: Candidate, ghost pending: seq<Adapter>)
    requires |pending| > 0 && pending[0] == c.adapter
    requires Starting(kernel, manager, arcs, pending)
    modifies kernel, manager, arcs
    ensures Starting(kernel, manager, arcs, pending[1..])
    ensures Registry(kernel.channelAdapters, manager.adapters)
         == StartOne(Registry(old(kernel.channelAdapters), old(manager.adapters)), c)
  {
    hide Untouched, Named, Kernel.Held, BridgeManager.Held;
    var adapter := c.adapter;
    ghost var later := multiset(pending[1..]);
    PendingSplits(pending);
    FirstUntouched(pending, kernel.channelAdapters.Values, arcs.now.started);
    RunningHeld(manager);
    Regroup(kernel.Held(), manager.Held(), multiset{adapter}, later);
    kernel.Insert(adapter, arcs, manager.Held() + (multiset{adapter} + later));
    Regroup(kernel.Held(), manager.Held(), multiset{adapter}, later);
    manager.StartAdapter(adapter, c.startOk, arcs, kernel.Held() + later);
    Regroup(kernel.Held(), manager.Held(), multiset{}, later);
    if !c.startOk {
      assert adapter !in arcs.now.started;
      kernel.Remove(adapter.name, false, arcs, manager.Held() + later);
      Regroup(kernel.Held(), manager.Held(), multiset{}, later);
      TakenBack(old(kernel.channelAdapters), adapter);
    }
    UntouchedTail(pending, old(kernel.channelAdapters.Values), old(arcs.now.started), kernel.channelAdapters.Values,
        arcs.now.started);
  }

  lemma TakenBack(m: AdapterMap, a: Adapter)
    ensures m[a.name := a] - {a.name} == m - {a.name}
  {
  }

  lemma RunningHeld(manager: BridgeManager)
    ensures forall a :: a in manager.adapters ==> a in manager.Held()
  {
  }

  lemma PendingSplits(pending: seq<Adapter>)
    requires |pending| > 0
    ensures multiset(pending) == multiset{pending[0]} + multiset(pending[1..])
  {
    assert pending == [pending[0]] + pending[1..];
  }

  // The same owners, grouped as each callee wants them
  lemma Regroup(kernel: multiset<Adapter>, manager: multiset<Adapter>, moving: multiset<Adapter>,
      later: multiset<Adapter>)
    ensures kernel + manager + (moving + later) == (manager + (moving + later)) + kernel
    ensures (manager + (moving + later)) + kernel == (kernel + later) + manager + moving
    ensures (kernel + later) + manager == (manager + later) + kernel
    ensures (manager + later) + kernel == kernel + manager + later
  {
  }

  lemma FirstUntouched(pending: seq<Adapter>, registered: set<Adapter>, started: set<Adapter>)
    requires |pending| > 0 && Untouched(pending, registered, started)
    ensures pending[0] !in registered && pending[0] !in started
  {
  }

  // The tail of start_channel_bridge_with_config
  method StartBridge(kernel: Kernel, plan: Plan, arcs: Arcs) returns (bridge: BridgeManager?, started: seq<string>)
    requires arcs.Valid() && Named(kernel.channelAdapters)
    requires arcs.now.refs == kernel.Held()
    requires arcs.now.started <= arcs.now.asked
    requires BrandNew(arcs.now, Adapters(plan.list))
    modifies kernel, arcs
    ensures bridge != null ==> fresh(bridge)
    ensures Settled(kernel, bridge, arcs)
    ensures Registry(kernel.channelAdapters, Running(bridge)) == Reloaded(old(kernel.channelAdapters), plan)
    ensures AsPlanned(Registry(kernel.channelAdapters, Running(bridge)), plan)
    ensures AreNamesOf(started, Running(bridge)) && (bridge == null <==> started == [])
  {
    hide Named, Kept, StartAll, BrandNew, AsPlanned;
    ReloadFollowsPlan(kernel.channelAdapters, plan);
    if plan.hasAny {
      bridge, started := StartConfigured(kernel, plan.list, arcs);
    } else {
      bridge, started := null, [];
      kernel.EvictStale({}, arcs, multiset{});
      NothingToStart(old(kernel.channelAdapters), plan);
    }
  }

  // A manager that started nothing is dropped without owing anything.
  lemma StartedSettles(kernel: Kernel, manager: BridgeManager, arcs: Arcs)
    requires Starting(kernel, manager, arcs, [])
    ensures Settled(kernel, if manager.adapters == [] then null else manager, arcs)
  {
    hide Untouched, Named, Kernel.Held;
    assert kernel.Held() + manager.Held() + multiset([]) == kernel.Held() + manager.Held();
    if manager.adapters == [] {
      assert kernel.Held() + manager.Held() == kernel.Held() + multiset{};
    }
  }

  method StartConfigured(kernel: Kernel, list: seq<Candidate>, arcs: Arcs)
      returns (bridge: BridgeManager?, started: seq<string>)
    requires arcs.Valid() && Named(kernel.channelAdapters)
    requires arcs.now.refs == kernel.Held()
    requires arcs.now.started <= arcs.now.asked
    requires BrandNew(arcs.now, Adapters(list))
    modifies kernel, arcs
    ensures bridge != null ==> fresh(bridge)
    ensures Settled(kernel, bridge, arcs)
    ensures Registry(kernel.channelAdapters, Running(bridge))
            == StartAll(Kept(old(kernel.channelAdapters), Names(list)), list)
    ensures AreNamesOf(started, Running(bridge)) && (bridge == null <==> started == [])
  {
    hide Untouched, Named, Kept, BrandNew, Adapters, StartOne;
    bridge, started := null, [];
    kernel.EvictStale(Names(list), arcs, multiset{});
    if |list| != 0 {
      NewcomersUnregistered(old(kernel.channelAdapters), Names(list), Adapters(list), old(arcs.now));
      CreateAdapters(Adapters(list), arcs);
      var manager := StartEach(kernel, list, arcs);
      StartedSettles(kernel, manager, arcs);
      hide Starting, Settled, StartAll, Names;
      if manager.adapters != [] {
        bridge := manager;
        started := AdapterNames(manager.adapters);
      }
    }
  }

  lemma NothingToStart(kernel: AdapterMap, plan: Plan)
    requires |Effective(plan)| == 0
    ensures Reloaded(kernel, plan) == Registry(Kept(kernel, {}), [])
    ensures Names(Effective(plan)) == {}
  {
  }

  method StartEach(kernel: Kernel, list: seq<Candidate>, arcs: Arcs) returns (manager: BridgeManager)
    requires arcs.Valid() && Named(kernel.channelAdapters)
    requires arcs.now.refs == kernel.Held() + multiset(Adapters(list))
    requires Untouched(Adapters(list), kernel.channelAdapters.Values, arcs.now.started)
    requires arcs.now.started <= arcs.now.asked
    modifies kernel, arcs
    ensures fresh(manager) && Starting(kernel, manager, arcs, [])
    ensures Registry(kernel.channelAdapters, manager.adapters) == StartAll(old(kernel.channelAdapters), list)
  {
    hide Untouched, Named, Kernel.Held, StartOne;
    manager := new BridgeManager();
    ghost var all := Adapters(list);
    assert all[0..] == all;
    assert kernel.Held() + manager.Held() == kernel.Held();
    for k := 0 to |list|
      invariant Starting(kernel, manager, arcs, all[k..])
      invariant Registry(kernel.channelAdapters, manager.adapters) == StartAll(old(kernel.channelAdapters), list[..k])
    {
      assert all[k..][1..] == all[k + 1..];
      StartCandidate(kernel, manager, arcs, list[k], all[k..]);
      assert list[..k + 1][..k] == list[..k];
    }
    assert all[|list|..] == [];
    assert list[..|list|] == list;
  }

  function AdapterNames(list: seq<Adapter>): seq<string> {
    seq(|list|, i requires 0 <= i < |list| => list[i].name)
  }

  ghost function Running(bridge: BridgeManager?): seq<Adapter>
    reads bridge
  {
    if bridge == null then [] else bridge.adapters
  }

  // Between reloads every counted owner is the kernel's map or the live manager,
  // and every adapter still running is held by the live manager.
  ghost predicate Settled(kernel: Kernel, bridge: BridgeManager?, arcs: Arcs)
    reads kernel, bridge, arcs
  {
    && arcs.Valid() && Named(kernel.channelAdapters)
    && (bridge != null ==> bridge.Valid())
    && arcs.now.refs == kernel.Held() + (if bridge == null then multiset{} else bridge.Held())
    && (forall a :: a in arcs.now.started && a !in arcs.now.asked ==> a in Running(bridge))
  }

  class AppState {
    const kernel: Kernel
    const arcs: Arcs
    var bridgeManager: BridgeManager?

    ghost predicate Valid()
      reads this, kernel, arcs, bridgeManager
    {
      Settled(kernel, bridgeManager, arcs)
    }

    ghost function View(): Registry
      reads this, kernel, bridgeManager
    {
      Registry(kernel.channelAdapters, Running(bridgeManager))
    }

    constructor ()
      ensures Valid() && View() == Registry(map[], [])
      ensures fresh(kernel) && fresh(arcs) && bridgeManager == null
    {
      kernel := new Kernel();
      arcs := new Arcs();
      bridgeManager := null;
    }

    // Take the old bridge out, stop it, start the new one, store it.
    method Reload(plan: Plan) returns (started: seq<string>)
      requires Valid()
      requires BrandNew(arcs.now, Adapters(plan.list))
      modifies this, kernel, arcs, bridgeManager
      ensures Valid()
      ensures View() == Reloaded(old(kernel.channelAdapters), plan)
      ensures AsPlanned(View(), plan) && AreNamesOf(started, View().running)
      ensures bridgeManager != null ==> fresh(bridgeManager)
    {
      var oldBridge := bridgeManager;
      bridgeManager := null;
      if oldBridge != null {
        oldBridge.StopWithDeadline(arcs, kernel.Held());
      }
      var newBridge;
      newBridge, started := StartBridge(kernel, plan, arcs);
      bridgeManager := newBridge;
    }
  }
}
