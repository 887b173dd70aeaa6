/** What holds over whole histories of operations on many services' balancers. */
module BalancerRuns {
  import opened Basics
  import opened Listeners
  import opened Instances
  import opened Names
  import opened Balancers
  import opened LoadBalancers

  // ----- One balancer over repeated attempts -----

  /** However an earlier attempt ended, reconciling what it left gives what reconciling the original
      would have given. */
  lemma PartialAttemptsAreInvisible(b: Balancer, d: Desired, o: Options, want: set<string>, b': Balancer)
    requires WellKeyed(d) && DistinctPorts(d) && Towards(b, d, o, want, b')
    ensures Reconciled(b', d, o, want) == Reconciled(b, d, o, want)
  {
    var done :| TowardsBy(b, d, o, want, b', done);
    RunKeepsGoal(b.listeners, d, o, done);
    BackendStagesAreSafe(b.backends, want, b'.backends);
  }

  /** After any number of attempts, each ended anywhere, a completed reconciliation leaves what it would
      have left of the original balancer. */
  lemma {:induction false} AttemptsAreInvisible(bs: seq<Balancer>, d: Desired, o: Options, want: set<string>)
    requires WellKeyed(d) && DistinctPorts(d) && bs != []
    requires forall i :: 0 <= i < |bs| - 1 ==> Towards(bs[i], d, o, want, bs[i + 1])
    ensures Reconciled(bs[|bs| - 1], d, o, want) == Reconciled(bs[0], d, o, want)
  {
    if |bs| > 1 {
      var n := |bs| - 2;
      AttemptsAreInvisible(bs[..n + 1], d, o, want);
      assert Towards(bs[n], d, o, want, bs[n + 1]);
      PartialAttemptsAreInvisible(bs[n], d, o, want, bs[n + 1]);
    }
  }

  /** A reconciled balancer has no work left: exactly the desired listeners, none stopped, exactly the
      wanted backends, and reconciling again changes nothing. */
  lemma ReconciledIsDone(b: Balancer, d: Desired, o: Options, want: set<string>)
    requires WellKeyed(d) && DistinctPorts(d)
    ensures var r := Reconciled(b, d, o, want);
      && Converged(r.listeners, d) && Weight(r.listeners, d) == 0
      && r.backends.Keys == want
      && Reconciled(r, d, o, want) == r
  {
    var r := Reconciled(b, d, o, want);
    SyncedConverges(b.listeners, d, o);
    WeightlessIffConverged(r.listeners, d);
    SyncedFixpoint(r.listeners, d, o);
    BackendStagesAreSafe(b.backends, want, b.backends);
    BackendStagesAreSafe(r.backends, want, r.backends);
  }

  // ----- One service, attempted again and again -----

  /** The balancer a sequence of attempts starts from: the one of the name, or a new blank one. */
  ghost predicate Origin(s: Balancers, name: string, first: Balancer) {
    if NoneNamed(s, name) then first == Blank(name, first.visibleFrom)
    else exists id :: id in s && s[id].name == name && first == s[id]
  }

  /** The attempts since s0 have moved the first balancer, now id, by the calls `done`, if it exists yet. */
  ghost predicate Tracked(s0: Balancers, name: string, d: Desired, o: Options, want: set<string>, s: Balancers, id: nat,
                          first: Balancer, done: seq<Call<Options>>) {
    && Origin(s0, name, first)
    && (if NoneNamed(s, name) then NoneNamed(s0, name) && done == []
        else id in s && s[id].name == name && TowardsBy(first, d, o, want, s[id], done))
  }

  lemma TrackStart(s: Balancers, name: string, d: Desired, o: Options, want: set<string>)
    returns (id: nat, first: Balancer)
    ensures Tracked(s, name, d, o, want, s, id, first, [])
  {
    id, first := 0, Blank(name, 0);
    if !NoneNamed(s, name) {
      id :| id in s && s[id].name == name;
      first := s[id];
    }
  }

  /** One more attempt, which moves balancer `moved`, continues from where the earlier ones stopped. */
  lemma TrackStep(s0: Balancers, name: string, d: Desired, o: Options, want: set<string>, s: Balancers, now: nat,
                  id: nat, first: Balancer, done: seq<Call<Options>>, newId: nat, base: Balancers, s': Balancers,
                  moved: nat, more: seq<Call<Options>>)
    returns (id': nat, first': Balancer)
    requires Tracked(s0, name, d, o, want, s, id, first, done) && UniqueNames(s) && Listed(s, name, now) && newId !in s
    requires FoundOrCreated(s, now, name, newId, base) && MovedAt(base, moved, name, d, o, want, s', more)
    ensures Tracked(s0, name, d, o, want, s', id', first', done + more)
    ensures (done != [] ==> id' == id) && (more != [] ==> id' == moved)
  {
    id', first' := id, first;
    if NoneNamed(s, name) {
      if base != s {
        var v :| base == s[newId := Blank(name, v)];
        id', first' := newId, base[newId];
        TrackMove(s0, name, d, o, want, base, id', first', [], s', moved, more);
      }
    } else {
      assert base == s;
      TrackMove(s0, name, d, o, want, s, id, first, done, s', moved, more);
    }
  }

  lemma TrackMove(s0: Balancers, name: string, d: Desired, o: Options, want: set<string>, s: Balancers, id: nat,
                  first: Balancer, done: seq<Call<Options>>, s': Balancers, moved: nat, more: seq<Call<Options>>)
    requires Tracked(s0, name, d, o, want, s, id, first, done) && !NoneNamed(s, name) && UniqueNames(s)
    requires MovedAt(s, moved, name, d, o, want, s', more)
    ensures Tracked(s0, name, d, o, want, s', id, first, done + more)
    ensures more != [] ==> id == moved
  {
    if moved in s {
      TowardsComposes(first, d, o, want, s[id], done, s'[id], more);
    } else {
      assert done + more == done;
    }
  }

  /** All calls so far were useful, and once the balancer is fully reconciled they are as many as the first
      weight, and the balancer is what reconciling the first one at once would have given. */
  lemma TrackEnds(s0: Balancers, name: string, d: Desired, o: Options, want: set<string>, s: Balancers, id: nat,
                  first: Balancer, done: seq<Call<Options>>)
    requires Tracked(s0, name, d, o, want, s, id, first, done) && WellKeyed(d)
    ensures |done| <= Weight(first.listeners, d)
    ensures DistinctPorts(d) && id in s && s[id].name == name && Reconciled(s[id], d, o, want) == s[id] ==>
      s[id] == Reconciled(first, d, o, want) && |done| == Weight(first.listeners, d)
  {
    if !NoneNamed(s, name) {
      RunSpendsWeight(first.listeners, d, o, done);
      if DistinctPorts(d) {
        PartialAttemptsAreInvisible(first, d, o, want, s[id]);
        ReconciledIsDone(s[id], d, o, want);
      }
    }
  }

  /** Attempts to ensure a service's balancer, n times under any faults and then once more. `first` is the
      balancer as first found or created, id its id, and `done` the listener calls of all attempts that took
      effect. They are at most as many as the weight of the first balancer, and at most one call of an
      attempt has no effect. A status returned at the end means that they are exactly as many and that the
      balancer is what reconciling the first one at once would have given. If the last attempt, which begins
      at call `from`, is undisturbed, it returns a status exactly for an acceptable service whose nodes
      resolve and whose listeners share no port. */
  method EnsureRepeatedly(slb: Slb, svc: Service, inventory: Option<seq<Instance>>, kind: NodeNameType,
                          nodes: seq<string>, n: nat)
    returns (r: EnsureResult, from: nat, ghost id: nat, ghost first: Balancer, ghost done: seq<Call<Options>>)
    requires slb.Valid() && slb.Prompt() && UniqueNames(slb.balancers) && AllListed(slb.balancers, slb.calls)
    modifies slb
    ensures from <= slb.calls
    ensures var d, o, want := Expected(svc.ports), OptionsOf(svc), WantOf(Looked(inventory, kind, nodes));
      && Tracked(old(slb.balancers), LoadBalancerName(svc.uid), d, o, want, slb.balancers, id, first, done)
      && slb.log == old(slb.log) + On(id, done) && |slb.log| - |old(slb.log)| <= Weight(first.listeners, d)
      && slb.tried <= old(slb.tried) + |done| + n + 1
      && (r.Ready? ==>
          && DistinctPorts(d) && r.id == id && id in slb.balancers
          && slb.balancers[id] == Reconciled(first, d, o, want)
          && |slb.log| - |old(slb.log)| == Weight(first.listeners, d))
    ensures Clean(slb.fate, from, slb.calls) ==>
      (r.Ready? <==> Acceptable(svc) && Looked(inventory, kind, nodes).Ok? && DistinctPorts(Expected(svc.ports)))
  {
    ghost var name := LoadBalancerName(svc.uid);
    ghost var d, o, want := Expected(svc.ports), OptionsOf(svc), WantOf(Looked(inventory, kind, nodes));
    id, first := TrackStart(slb.balancers, name, d, o, want);
    done := [];
    ghost var s0, log0, tried0 := slb.balancers, slb.log, slb.tried;
    for i := 0 to n
      invariant slb.Valid() && UniqueNames(slb.balancers) && AllListed(slb.balancers, slb.calls)
      invariant Tracked(s0, name, d, o, want, slb.balancers, id, first, done)
      invariant slb.log == log0 + On(id, done) && slb.tried <= tried0 + |done| + i
    {
      r, id, first, done := Attempt(slb, svc, inventory, kind, nodes, s0, log0, id, first, done);
    }
    from := slb.calls;
    r, id, first, done := Attempt(slb, svc, inventory, kind, nodes, s0, log0, id, first, done);
    TrackEnds(s0, name, d, o, want, slb.balancers, id, first, done);
  }

  method Attempt(slb: Slb, svc: Service, inventory: Option<seq<Instance>>, kind: NodeNameType, nodes: seq<string>,
                 ghost s0: Balancers, ghost log0: Log, ghost id: nat, ghost first: Balancer,
                 ghost done: seq<Call<Options>>)
    returns (r: EnsureResult, ghost id': nat, ghost first': Balancer, ghost done': seq<Call<Options>>)
    requires slb.Valid() && slb.Prompt() && UniqueNames(slb.balancers) && AllListed(slb.balancers, slb.calls)
    requires Tracked(s0, LoadBalancerName(svc.uid), Expected(svc.ports), OptionsOf(svc),
                     WantOf(Looked(inventory, kind, nodes)), slb.balancers, id, first, done)
    requires slb.log == log0 + On(id, done)
    modifies slb
    ensures slb.Valid() && old(slb.calls) <= slb.calls
    ensures UniqueNames(slb.balancers) && AllListed(slb.balancers, slb.calls)
    ensures slb.log == log0 + On(id', done') && slb.tried <= old(slb.tried) + |done'| - |done| + 1
    ensures var d, o, want := Expected(svc.ports), OptionsOf(svc), WantOf(Looked(inventory, kind, nodes));
      && Tracked(s0, LoadBalancerName(svc.uid), d, o, want, slb.balancers, id', first', done')
      && (r.Ready? ==>
          && DistinctPorts(d) && r.id == id' && id' in slb.balancers
          && slb.balancers[id'].name == LoadBalancerName(svc.uid)
          && Reconciled(slb.balancers[id'], d, o, want) == slb.balancers[id'])
    ensures Clean(slb.fate, old(slb.calls), slb.calls) ==>
      (r.Ready? <==> Acceptable(svc) && Looked(inventory, kind, nodes).Ok? && DistinctPorts(Expected(svc.ports)))
  {
    ghost var s, now, newId, name := slb.balancers, slb.calls, slb.nextId, LoadBalancerName(svc.uid);
    ghost var d, o, want := Expected(svc.ports), OptionsOf(svc), WantOf(Looked(inventory, kind, nodes));
    ghost var base, moved, more;
    r, base, moved, more := slb.EnsureLoadBalancer(svc, inventory, kind, nodes);
    id', first' := TrackStep(s0, name, d, o, want, s, now, id, first, done, newId, base, slb.balancers, moved, more);
    done' := done + more;
    LogGrows(log0, id, done, moved, more, id', slb.log);
    if r.Ready? {
      ReconciledIsDone(base[r.id], d, o, want);
    }
  }

  lemma LogGrows(log0: Log, id: nat, done: seq<Call<Options>>, moved: nat, more: seq<Call<Options>>, id': nat,
                 log: Log)
    requires log == log0 + On(id, done) + On(moved, more)
    requires (done != [] ==> id' == id) && (more != [] ==> id' == moved)
    ensures log == log0 + On(id', done + more)
  {
    OnAppend(id', done, more);
    assert On(id, done) == On(id', done) && On(moved, more) == On(id', more);
  }

  // ----- Many services -----

  /** The operations of the provider, on the balancer of a service. */
  datatype Op =
    | Ensure(svc: Service, inventory: Option<seq<Instance>>, kind: NodeNameType, nodes: seq<string>)
    | Update(svc: Service, inventory: Option<seq<Instance>>, kind: NodeNameType, nodes: seq<string>)
    | Remove(svc: Service)

  function NameOf(op: Op): string {
    LoadBalancerName(op.svc.uid)
  }

  /** The service's balancer has exactly the listeners and backends the operation was to give it. */
  ghost predicate Serves(s: Balancers, op: Op) {
    && !op.Remove?
    && exists id :: id in s && ServesAs(s[id], op)
  }

  ghost predicate ServesAs(b: Balancer, op: Op)
    requires !op.Remove?
  {
    && b.name == NameOf(op) && Converged(b.listeners, Expected(op.svc.ports))
    && b.backends.Keys == WantOf(Looked(op.inventory, op.kind, op.nodes))
  }

  /** What one operation does to the account, from call `now` to call `now'`. */
  ghost predicate Performed(op: Op, ok: bool, s: Balancers, now: nat, prompt: bool, s': Balancers, now': nat) {
    && OpStep(s, now, NameOf(op), prompt, s', now')
    && (!op.Ensure? ==> s'.Keys <= s.Keys)
    && (ok && !op.Remove? ==> Serves(s', op))
    && (ok && op.Remove? && UniqueNames(s) && Findable(s, NameOf(op), now) ==> NoneNamed(s', NameOf(op)))
  }

  method Perform(slb: Slb, op: Op) returns (ok: bool)
    requires slb.Valid()
    modifies slb
    ensures slb.Valid()
    ensures Performed(op, ok, old(slb.balancers), old(slb.calls), slb.Prompt(), slb.balancers, slb.calls)
  {
    match op
    case Ensure(svc, inventory, kind, nodes) =>
      ok := PerformEnsure(slb, svc, inventory, kind, nodes);
    case Update(svc, inventory, kind, nodes) =>
      ok := PerformUpdate(slb, svc, inventory, kind, nodes);
    case Remove(svc) =>
      ok := slb.EnsureLoadBalancerDeleted(svc);
  }

  method PerformEnsure(slb: Slb, svc: Service, inventory: Option<seq<Instance>>, kind: NodeNameType, nodes: seq<string>)
    returns (ok: bool)
    requires slb.Valid()
    modifies slb
    ensures slb.Valid()
    ensures OpStep(old(slb.balancers), old(slb.calls), LoadBalancerName(svc.uid), slb.Prompt(), slb.balancers,
                   slb.calls)
    ensures ok ==> Serves(slb.balancers, Ensure(svc, inventory, kind, nodes))
  {
    ghost var base, id, done;
    var r;
    r, base, id, done := slb.EnsureLoadBalancer(svc, inventory, kind, nodes);
    if r.Ready? {
      ReconciledIsDone(base[r.id], Expected(svc.ports), OptionsOf(svc), WantOf(Looked(inventory, kind, nodes)));
      assert ServesAs(slb.balancers[r.id], Ensure(svc, inventory, kind, nodes));
    }
    return r.Ready?;
  }

  method PerformUpdate(slb: Slb, svc: Service, inventory: Option<seq<Instance>>, kind: NodeNameType, nodes: seq<string>)
    returns (ok: bool)
    requires slb.Valid()
    modifies slb
    ensures slb.Valid()
    ensures OpStep(old(slb.balancers), old(slb.calls), LoadBalancerName(svc.uid), slb.Prompt(), slb.balancers,
                   slb.calls)
    ensures slb.balancers.Keys <= old(slb.balancers).Keys
    ensures ok ==> Serves(slb.balancers, Update(svc, inventory, kind, nodes))
  {
    ghost var s, id, done := slb.balancers, 0, [];
    ok, id, done := slb.UpdateLoadBalancer(svc, inventory, kind, nodes);
    if ok {
      ReconciledIsDone(s[id], Expected(svc.ports), OptionsOf(svc), WantOf(Looked(inventory, kind, nodes)));
      assert ServesAs(slb.balancers[id], Update(svc, inventory, kind, nodes));
    }
  }

  datatype Account = Account(balancers: Balancers, now: nat)

  /** The accounts between the operations of a run. */
  ghost predicate History(trace: seq<Account>, ops: seq<Op>, oks: seq<bool>, prompt: bool) {
    && |trace| == |ops| + 1 && |oks| == |ops|
    && forall i :: 0 <= i < |ops| ==> HistoryStep(trace, ops, oks, prompt, i)
  }

  ghost predicate HistoryStep(trace: seq<Account>, ops: seq<Op>, oks: seq<bool>, prompt: bool, i: nat)
    requires i < |ops| == |oks| && |trace| == |ops| + 1
  {
    Performed(ops[i], oks[i], trace[i].balancers, trace[i].now, prompt, trace[i + 1].balancers, trace[i + 1].now)
  }

  /** There is at most one balancer per name, and all are listed. */
  ghost predicate Orderly(a: Account) {
    UniqueNames(a.balancers) && AllListed(a.balancers, a.now)
  }

  lemma {:induction false} StaysOrderly(trace: seq<Account>, ops: seq<Op>, oks: seq<bool>, i: nat)
    requires History(trace, ops, oks, true) && i < |trace| && Orderly(trace[0])
    ensures Orderly(trace[i])
  {
    if i > 0 {
      StaysOrderly(trace, ops, oks, i - 1);
      assert HistoryStep(trace, ops, oks, true, i - 1);
    }
  }

  ghost function OfName(s: Balancers, name: string): Balancers {
    map id | id in s && s[id].name == name :: s[id]
  }

  /** None of the operations from i to j concerns the name. */
  ghost predicate Quiet(ops: seq<Op>, name: string, i: nat, j: nat) {
    forall k :: i <= k < j && k < |ops| ==> NameOf(ops[k]) != name
  }

  lemma {:induction false} OthersAreUntouched(trace: seq<Account>, ops: seq<Op>, oks: seq<bool>, prompt: bool,
                                              name: string, i: nat, j: nat)
    requires History(trace, ops, oks, prompt) && i <= j < |trace| && Quiet(ops, name, i, j)
    ensures OfName(trace[j].balancers, name) == OfName(trace[i].balancers, name)
    decreases j
  {
    if i < j {
      OthersAreUntouched(trace, ops, oks, prompt, name, i, j - 1);
      assert HistoryStep(trace, ops, oks, prompt, j - 1);
    }
  }

  /** A successful Ensure or Update holds until the next operation on its service. */
  lemma ServedStays(trace: seq<Account>, ops: seq<Op>, oks: seq<bool>, prompt: bool, i: nat, j: nat)
    requires History(trace, ops, oks, prompt) && i < j < |trace| && oks[i] && !ops[i].Remove?
    requires Quiet(ops, NameOf(ops[i]), i + 1, j)
    ensures Serves(trace[j].balancers, ops[i])
  {
    var name := NameOf(ops[i]);
    assert HistoryStep(trace, ops, oks, prompt, i);
    var s, s' := trace[i + 1].balancers, trace[j].balancers;
    OthersAreUntouched(trace, ops, oks, prompt, name, i + 1, j);
    var id :| id in s && ServesAs(s[id], ops[i]);
    assert id in OfName(s, name);
    assert id in OfName(s', name);
    assert s'[id] == s[id];
  }

  /** None of the operations from i to j ensures the balancer of the name. */
  ghost predicate NotEnsured(ops: seq<Op>, name: string, i: nat, j: nat) {
    forall k :: i <= k < j && k < |ops| ==> !(ops[k].Ensure? && NameOf(ops[k]) == name)
  }

  lemma {:induction false} GoneStaysGone(trace: seq<Account>, ops: seq<Op>, oks: seq<bool>, prompt: bool, name: string,
                                         i: nat, j: nat)
    requires History(trace, ops, oks, prompt) && i <= j < |trace| && NotEnsured(ops, name, i, j)
    requires NoneNamed(trace[i].balancers, name)
    ensures NoneNamed(trace[j].balancers, name)
    decreases j
  {
    if i < j {
      GoneStaysGone(trace, ops, oks, prompt, name, i, j - 1);
      assert HistoryStep(trace, ops, oks, prompt, j - 1);
      assert !(ops[j - 1].Ensure? && NameOf(ops[j - 1]) == name);
    }
  }

  /** A successful deletion holds until the service is ensured again. */
  lemma RemovedStaysGone(trace: seq<Account>, ops: seq<Op>, oks: seq<bool>, i: nat, j: nat)
    requires History(trace, ops, oks, true) && Orderly(trace[0]) && i < j < |trace| && oks[i] && ops[i].Remove?
    requires NotEnsured(ops, NameOf(ops[i]), i + 1, j)
    ensures NoneNamed(trace[j].balancers, NameOf(ops[i]))
  {
    StaysOrderly(trace, ops, oks, i);
    assert HistoryStep(trace, ops, oks, true, i);
    GoneStaysGone(trace, ops, oks, true, NameOf(ops[i]), i + 1, j);
  }

  /** Runs any operations on the services' balancers, under any faults and any lag. `trace` are the accounts
      between them. A name that no operation of a stretch concerns keeps its balancer over the stretch, and
      a successful Ensure or Update holds until the next operation on its service. With prompt listings,
      there is at most one balancer per name at every point, and a successful deletion holds until the
      service is ensured again. */
  method RunOperations(slb: Slb, ops: seq<Op>) returns (oks: seq<bool>, ghost trace: seq<Account>)
    requires slb.Valid()
    modifies slb
    ensures |oks| == |ops| && |trace| == |ops| + 1
    ensures trace[0] == Account(old(slb.balancers), old(slb.calls)) && trace[|ops|] == Account(slb.balancers, slb.calls)
    ensures forall name, i, j :: 0 <= i <= j <= |ops| && Quiet(ops, name, i, j) ==>
      OfName(trace[j].balancers, name) == OfName(trace[i].balancers, name)
    ensures forall i, j :: 0 <= i < j <= |ops| && oks[i] && !ops[i].Remove? && Quiet(ops, NameOf(ops[i]), i + 1, j) ==>
      Serves(trace[j].balancers, ops[i])
    ensures slb.Prompt() && Orderly(trace[0]) ==> forall i :: 0 <= i <= |ops| ==> UniqueNames(trace[i].balancers)
    ensures slb.Prompt() && Orderly(trace[0]) ==>
      forall i, j :: 0 <= i < j <= |ops| && oks[i] && ops[i].Remove? && NotEnsured(ops, NameOf(ops[i]), i + 1, j) ==>
        NoneNamed(trace[j].balancers, NameOf(ops[i]))
  {
    oks, trace := RunAll(slb, ops);
    forall name, i, j | 0 <= i <= j <= |ops| && Quiet(ops, name, i, j)
      ensures OfName(trace[j].balancers, name) == OfName(trace[i].balancers, name)
    {
      OthersAreUntouched(trace, ops, oks, slb.Prompt(), name, i, j);
    }
    forall i, j | 0 <= i < j <= |ops| && oks[i] && !ops[i].Remove? && Quiet(ops, NameOf(ops[i]), i + 1, j)
      ensures Serves(trace[j].balancers, ops[i])
    {
      ServedStays(trace, ops, oks, slb.Prompt(), i, j);
    }
    if slb.Prompt() && Orderly(trace[0]) {
      forall i | 0 <= i <= |ops|
        ensures UniqueNames(trace[i].balancers)
      {
        StaysOrderly(trace, ops, oks, i);
      }
      forall i, j | 0 <= i < j <= |ops| && oks[i] && ops[i].Remove? && NotEnsured(ops, NameOf(ops[i]), i + 1, j)
        ensures NoneNamed(trace[j].balancers, NameOf(ops[i]))
      {
        RemovedStaysGone(trace, ops, oks, i, j);
      }
    }
  }

  method RunAll(slb: Slb, ops: seq<Op>) returns (oks: seq<bool>, ghost trace: seq<Account>)
    requires slb.Valid()
    modifies slb
    ensures slb.Valid() && History(trace, ops, oks, slb.Prompt())
    ensures trace[0] == Account(old(slb.balancers), old(slb.calls)) && trace[|ops|] == Account(slb.balancers, slb.calls)
  {
    oks, trace := [], [Account(slb.balancers, slb.calls)];
    for i := 0 to |ops|
      invariant slb.Valid() && |oks| == i && |trace| == i + 1
      invariant trace[0] == Account(old(slb.balancers), old(slb.calls)) && trace[i] == Account(slb.balancers, slb.calls)
      invariant History(trace, ops[..i], oks, slb.Prompt())
    {
      var ok := Perform(slb, ops[i]);
      ghost var a := Account(slb.balancers, slb.calls);
      HistoryExtends(trace, ops[..i], oks, slb.Prompt(), ops[i], ok, a);
      assert ops[..i + 1] == ops[..i] + [ops[i]];
      oks, trace := oks + [ok], trace + [a];
    }
    assert ops[..|ops|] == ops;
  }

  lemma HistoryExtends(trace: seq<Account>, ops: seq<Op>, oks: seq<bool>, prompt: bool, op: Op, ok: bool, a: Account)
    requires History(trace, ops, oks, prompt)
    requires var last := trace[|ops|]; Performed(op, ok, last.balancers, last.now, prompt, a.balancers, a.now)
    ensures History(trace + [a], ops + [op], oks + [ok], prompt)
  {
    forall i | 0 <= i < |ops| + 1
      ensures HistoryStep(trace + [a], ops + [op], oks + [ok], prompt, i)
    {
      if i < |ops| {
        assert HistoryStep(trace, ops, oks, prompt, i);
      }
    }
  }

  /** An undisturbed Ensure that sees no balancer of the name up to its third poll, and whose own is listed
      later, makes one more and answers nil. */
  lemma LateEnsureCreates(s: Balancers, now: nat, newId: nat, late: nat, svc: Service, want: set<string>,
                          r: EnsureResult, base: Balancers, id: nat, done: seq<Call<Options>>, s': Balancers,
                          now': nat)
    requires Ensured(s, now, newId, late, svc, want, true, r, base, id, done, s', now')
    requires Unlisted(s, LoadBalancerName(svc.uid), now + 4) && late > 2
    ensures r == Nil && s' == s[newId := Blank(LoadBalancerName(svc.uid), now + 2 + late)] && now' <= now + 8
  {
    assert Unlisted(s, LoadBalancerName(svc.uid), now);
  }

  /** When listings lag, Ensure makes a second balancer of the same name: for any acceptable service whose
      nodes resolve, two undisturbed calls on an empty account, the first one's balancer not yet listed.
      Neither returns an error, nor a status. */
  method SlowListingsDuplicate(svc: Service, inventory: Option<seq<Instance>>, kind: NodeNameType, nodes: seq<string>)
    returns (slb: Slb, first: EnsureResult, second: EnsureResult)
    requires Acceptable(svc) && Looked(inventory, kind, nodes).Ok?
    ensures fresh(slb) && first == second == Nil
    ensures slb.balancers.Keys == {0, 1} && !UniqueNames(slb.balancers)
    ensures forall id :: id in slb.balancers ==> slb.balancers[id].name == LoadBalancerName(svc.uid)
  {
    slb := new Slb(_ => Delivered, _ => 100);
    first := EnsureLate(slb, svc, inventory, kind, nodes);
    second := EnsureLate(slb, svc, inventory, kind, nodes);
  }

  method EnsureLate(slb: Slb, svc: Service, inventory: Option<seq<Instance>>, kind: NodeNameType, nodes: seq<string>)
    returns (r: EnsureResult)
    requires slb.Valid() && Acceptable(svc) && Looked(inventory, kind, nodes).Ok?
    requires forall k: nat :: slb.fate(k) == Delivered && slb.lag(k) == 100
    requires Unlisted(slb.balancers, LoadBalancerName(svc.uid), slb.calls + 8)
    modifies slb
    ensures slb.Valid() && r == Nil && slb.nextId == old(slb.nextId) + 1 && slb.calls <= old(slb.calls) + 8
    ensures slb.balancers ==
      old(slb.balancers)[old(slb.nextId) := Blank(LoadBalancerName(svc.uid), old(slb.calls) + 102)]
  {
    ghost var s, now, newId, want := slb.balancers, slb.calls, slb.nextId, WantOf(Looked(inventory, kind, nodes));
    ghost var base, id, done;
    r, base, id, done := slb.EnsureLoadBalancer(svc, inventory, kind, nodes);
    LateEnsureCreates(s, now, newId, 100, svc, want, r, base, id, done, slb.balancers, slb.calls);
  }

  // ----- Ensure against Update -----

  /** On equal accounts where the service's balancer exists, an Ensure and an Update that both succeed
      leave equal accounts; undisturbed, for an acceptable service whose nodes resolve and whose ports
      are distinct, both do succeed. */
  method EnsureMeetsUpdate(a: Slb, b: Slb, svc: Service, inventory: Option<seq<Instance>>, kind: NodeNameType,
                           nodes: seq<string>)
    returns (r: EnsureResult, ok: bool)
    requires a != b && a.Valid() && b.Valid() && a.balancers == b.balancers && a.calls == b.calls
    requires UniqueNames(a.balancers) && Listed(a.balancers, LoadBalancerName(svc.uid), a.calls)
    requires !NoneNamed(a.balancers, LoadBalancerName(svc.uid))
    modifies a, b
    ensures r.Ready? && ok ==> a.balancers == b.balancers
    ensures Acceptable(svc) && Clean(a.fate, old(a.calls), a.calls) && Clean(b.fate, old(b.calls), b.calls) ==>
      (r.Ready? <==> ok) && (ok <==> Looked(inventory, kind, nodes).Ok? && DistinctPorts(Expected(svc.ports)))
  {
    ghost var s := a.balancers;
    ghost var base, id, done;
    r, base, id, done := a.EnsureLoadBalancer(svc, inventory, kind, nodes);
    ok, id, done := b.UpdateLoadBalancer(svc, inventory, kind, nodes);
    assert base == s;
    if Acceptable(svc) && id in s {
      AcceptableSyncable(svc, s[id].listeners);
    }
  }
}
