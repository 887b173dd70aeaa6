/** The load-balancer service and the provider operations on it (loadbalancer.go). The class holds the
    remote state; every API call consumes one entry of the fault schedule `fate`. */
module LoadBalancers {
  import opened Basics
  import opened Text
  import opened Listeners
  import opened Codec
  import opened Instances
  import opened Names
  import opened Balancers

  /** What getLoadBalancer answers: an error, no such balancer, or the balancer. */
  datatype Answer = Failed | Absent | Present(lb: Snapshot)

  /** What EnsureLoadBalancer answers; `Nil` is a nil status together with a nil error. */
  datatype EnsureResult = Ready(id: nat) | Nil | Error

  /** How an Ensure of an accepted service may end: only its balancer, id, is touched, by the useful calls
      `done`; a returned status means full reconciliation. */
  ghost predicate EnsureOutcome(base: Balancers, svc: Service, want: set<string>, r: EnsureResult, s': Balancers,
                                id: nat, done: seq<Call<Options>>) {
    var name, d, o := LoadBalancerName(svc.uid), Expected(svc.ports), OptionsOf(svc);
    && MovedAt(base, id, name, d, o, want, s', done)
    && (id in base && !DistinctPorts(d) ==> s'[id].backends == base[id].backends)
    && (r.Ready? ==> DistinctPorts(d) && r.id == id && id in base)
    && (r.Ready? ==> s' == base[id := Reconciled(base[id], d, o, want)])
  }

  /** The same from the account s at call `now`, before the balancer was found or created under the id
      `newId`, to s' at call `now'`. A new balancer is blank and listed `late` calls after its creation. A
      nil answer comes only after three polls. Undisturbed, a balancer is created exactly when the listing
      shows none; the answer is nil exactly when none is listed up to the third poll; otherwise a status is
      returned exactly when no two expected listeners share a port; and names stay unique exactly when the
      listing shows the service's balancer if there is one. */
  ghost predicate Ensured(s: Balancers, now: nat, newId: nat, late: nat, svc: Service, want: set<string>, clean: bool,
                          r: EnsureResult, base: Balancers, id: nat, done: seq<Call<Options>>, s': Balancers,
                          now': nat) {
    var name := LoadBalancerName(svc.uid);
    && FoundOrCreated(s, now, name, newId, base) && EnsureOutcome(base, svc, want, r, s', id, done)
    && (base != s ==> base == s[newId := Blank(name, now + 2 + late)])
    && (r == Nil ==> s' == base && now + 5 <= now' <= now + 8 && Unlisted(base, name, now' - 1))
    && (r.Ready? && base == s ==> clean)
    && (clean ==>
        && (base != s <==> Unlisted(s, name, now))
        && (r == Nil <==> late > 2 && Unlisted(s, name, now + 4))
        && (r.Ready? <==> r != Nil && DistinctPorts(Expected(svc.ports)))
        && (UniqueNames(s) ==> (UniqueNames(s') <==> Findable(s, name, now))))
  }

  /** Names stay unique, and other names are left alone, because of how the balancer was found or created. */
  lemma EnsuredIsOpStep(s: Balancers, now: nat, newId: nat, svc: Service, want: set<string>, prompt: bool,
                        r: EnsureResult, base: Balancers, id: nat, done: seq<Call<Options>>, s': Balancers, now': nat)
    requires newId !in s && now <= now'
    requires FoundOrCreated(s, now, LoadBalancerName(svc.uid), newId, base)
    requires EnsureOutcome(base, svc, want, r, s', id, done)
    requires prompt && base != s ==> base[newId].visibleFrom <= now'
    ensures OpStep(s, now, LoadBalancerName(svc.uid), prompt, s', now')
    ensures UniqueNames(s) && (Unlisted(s, LoadBalancerName(svc.uid), now) ==> base != s) ==>
      (UniqueNames(s') <==> Findable(s, LoadBalancerName(svc.uid), now))
  {
    var name, d, o := LoadBalancerName(svc.uid), Expected(svc.ports), OptionsOf(svc);
    MovedAtIsMoved(base, id, name, d, o, want, s', done);
    EnsureIsOpStep(s, now, name, newId, base, prompt, d, o, want, s', now');
  }

  /** A search that ended before call `mid`, and the reconciliation of what it found, make an Ensure. */
  lemma SearchThenReconcile(fate: nat -> Fate, s: Balancers, now: nat, newId: nat, late: nat, svc: Service,
                            want: set<string>, prompt: bool, answer: Answer, mid: nat, r: EnsureResult,
                            base: Balancers, id: nat, done: seq<Call<Options>>, s': Balancers, now': nat)
    requires newId !in s && mid <= now'
    requires Searched(fate, s, now, newId, late, LoadBalancerName(svc.uid), answer, mid, base)
    requires prompt && base != s ==> base[newId].visibleFrom <= now'
    requires EnsureOutcome(base, svc, want, r, s', id, done) && (!answer.Present? ==> s' == base && now' == mid)
    requires r == Nil <==> answer.Absent?
    requires r.Ready? <==> answer.Present? && Clean(fate, mid, now') && DistinctPorts(Expected(svc.ports))
    ensures Ensured(s, now, newId, late, svc, want, Clean(fate, now, now'), r, base, id, done, s', now')
    ensures OpStep(s, now, LoadBalancerName(svc.uid), prompt, s', now')
  {
    CleanSplits(fate, now, mid, now');
    EnsuredIsOpStep(s, now, newId, svc, want, prompt, r, base, id, done, s', now');
  }

  lemma UpdateIsOpStep(s: Balancers, now: nat, newId: nat, id: nat, svc: Service, found: Lookup<seq<Instance>>,
                       clean: bool, prompt: bool, ok: bool, s': Balancers, done: seq<Call<Options>>, now': nat)
    requires newId !in s && now <= now' && id in s && s[id].name == LoadBalancerName(svc.uid)
    requires UpdateOutcome(s, id, svc, found, clean, ok, s', done)
    ensures OpStep(s, now, LoadBalancerName(svc.uid), prompt, s', now') && s'.Keys == s.Keys
  {
    var name, d, o := LoadBalancerName(svc.uid), Expected(svc.ports), OptionsOf(svc);
    MovedAtIsMoved(s, id, name, d, o, WantOf(found), s', done);
    EnsureIsOpStep(s, now, name, newId, s, prompt, d, o, WantOf(found), s', now');
  }

  /** A search that ended before call `now` answers what its last look found. */
  ghost predicate LastLook(fate: nat -> Fate, s: Balancers, name: string, now: nat, r: Answer) {
    match r
    case Failed => now >= 1 && fate(now - 1) != Delivered
    case Absent => now >= 1 && fate(now - 1) == Delivered && Unlisted(s, name, now - 1)
    case Present(_) => now >= 2 && Clean(fate, now - 2, now) && !Unlisted(s, name, now - 2)
  }

  /** What an undisturbed search from call `now` on does: it creates exactly when the listing shows none, and
      finds none exactly when none is listed up to the third poll. */
  ghost predicate CleanSearch(s: Balancers, now: nat, name: string, late: nat, base: Balancers, r: Answer) {
    && !r.Failed?
    && (base != s <==> Unlisted(s, name, now))
    && (r.Absent? <==> late > 2 && Unlisted(s, name, now + 4))
  }

  /** What a search from call `now` to before call `mid` does under any faults. The balancer is there, or was
      created blank under the id `newId`; the answer is that of the last look. A disturbed first look or a
      disturbed creation ends it, and after another creation there are three looks unless one finds it. */
  ghost predicate Searched(fate: nat -> Fate, s: Balancers, now: nat, newId: nat, late: nat, name: string,
                           answer: Answer, mid: nat, base: Balancers) {
    && now < mid <= now + 8
    && FoundOrCreated(s, now, name, newId, base)
    && (base != s ==> base == s[newId := Blank(name, now + 2 + late)])
    && LastLook(fate, base, name, mid, answer)
    && (answer.Present? && base == s ==> Clean(fate, now, mid))
    && (answer.Absent? ==> base != s && now + 5 <= mid)
    && (fate(now) != Delivered ==> answer.Failed? && base == s && mid == now + 1)
    && (fate(now) == Delivered && Unlisted(s, name, now) ==>
        if fate(now + 1) == Delivered then !answer.Present? ==> now + 5 <= mid
        else answer.Failed? && mid == now + 2 && (base == s <==> fate(now + 1) == Rejected))
    && (Clean(fate, now, mid) ==> CleanSearch(s, now, name, late, base, answer))
  }

  lemma FoundSearch(s: Balancers, now: nat, name: string, late: nat, r: Answer)
    requires r.Present? && !Unlisted(s, name, now)
    ensures CleanSearch(s, now, name, late, s, r)
  {
    UnlistedBefore(s, name, now, now + 4);
  }

  lemma CreatedSearch(s: Balancers, now: nat, name: string, late: nat, newId: nat, base: Balancers, r: Answer)
    requires newId !in s && Unlisted(s, name, now) && base == s[newId := Blank(name, now + 2 + late)]
    requires !r.Failed? && (r.Absent? <==> Unlisted(base, name, now + 4))
    ensures CleanSearch(s, now, name, late, base, r)
  {
    CreatedUnlisted(s, newId, name, now + 2 + late, now + 4);
  }

  class Slb {
    const fate: nat -> Fate
    const lag: nat -> nat
    var calls: nat
    var balancers: Balancers
    var nextId: nat
    /** The mutating listener calls that took effect, in order, and how many were made. */
    ghost var log: Log
    ghost var tried: nat

    constructor (fate: nat -> Fate, lag: nat -> nat)
      ensures this.fate == fate && this.lag == lag && calls == 0 && balancers == map[] && nextId == 0
      ensures log == [] && tried == 0
    {
      this.fate, this.lag := fate, lag;
      calls, balancers, nextId := 0, map[], 0;
      log, tried := [], 0;
    }

    /** The state in which balancer id has listeners t and everything else is as in s. */
    static ghost function WithListeners(s: Balancers, id: nat, t: Table<Options>): Balancers
      requires id in s
    {
      s[id := s[id].(listeners := t)]
    }

    /** The calls `done` of a reconciler for d took the state from s to s'. */
    static ghost predicate Progress(s: Balancers, id: nat, d: Desired, o: Options, done: seq<Call<Options>>,
                                    s': Balancers) {
      && id in s
      && UsefulRun(s[id].listeners, d, o, done)
      && s' == WithListeners(s, id, ApplyAll(s[id].listeners, done))
    }

    static lemma ProgressComposes(s: Balancers, id: nat, d: Desired, o: Options, a: seq<Call<Options>>, s1: Balancers,
                                  b: seq<Call<Options>>, s2: Balancers)
      requires Progress(s, id, d, o, a, s1) && Progress(s1, id, d, o, b, s2)
      ensures Progress(s, id, d, o, a + b, s2)
    {
      RunsCompose(s[id].listeners, d, o, a, b);
    }

    // ----- The API calls on listeners -----

    method Invoke(id: nat, c: Call<Options>) returns (ok: bool, ghost applied: bool)
      requires id in balancers
      modifies `calls, `balancers, `log, `tried
      ensures calls == old(calls) + 1 && tried == old(tried) + 1
      ensures applied == (fate(old(calls)) != Rejected && Accepts(old(balancers[id].listeners), c))
      ensures ok == (applied && fate(old(calls)) == Delivered)
      ensures applied ==> balancers == WithListeners(old(balancers), id, Apply(old(balancers[id].listeners), c))
      ensures !applied ==> balancers == old(balancers)
      ensures log == if applied then old(log) + [(id, c)] else old(log)
    {
      var f := fate(calls);
      var b := balancers[id];
      calls, tried := calls + 1, tried + 1;
      if f == Rejected || !Accepts(b.listeners, c) {
        return false, false;
      }
      balancers := balancers[id := b.(listeners := Apply(b.listeners, c))];
      log := log + [(id, c)];
      return f == Delivered, true;
    }

    /** Makes a useful call, or one that is refused with work left, after the calls `done` since the account
        was s. */
    method Advance(id: nat, d: Desired, o: Options, c: Call<Options>, ghost s: Balancers,
                   ghost done: seq<Call<Options>>)
      returns (ok: bool, ghost more: seq<Call<Options>>)
      requires WellKeyed(d) && Progress(s, id, d, o, done, balancers)
      requires var t := balancers[id].listeners; Useful(t, d, o, c) || (!Accepts(t, c) && Weight(t, d) > 0)
      modifies `calls, `balancers, `log, `tried
      ensures calls == old(calls) + 1
      ensures Progress(s, id, d, o, done + more, balancers)
      ensures balancers == old(balancers) || balancers[id].listeners == Apply(old(balancers[id].listeners), c)
      ensures ok ==>
        Accepts(old(balancers[id].listeners), c) && balancers[id].listeners == Apply(old(balancers[id].listeners), c)
      ensures Recorded(old(log), old(tried), id, more, ok, Left(balancers, id, d), log, tried)
      ensures ok <==> Clean(fate, old(calls), calls) && Accepts(old(balancers[id].listeners), c)
    {
      if Accepts(balancers[id].listeners, c) {
        UsefulCallLowersWeight(balancers[id].listeners, d, o, c);
        RunExtends(s[id].listeners, d, o, done, c);
      }
      ghost var applied;
      ok, applied := Invoke(id, c);
      more := if applied then [c] else [];
      assert done + [] == done;
    }

    /** Reads backend port and status of the listener on a port. A failed read is reported here as
        None. */
    method GetListenerAttributes(id: nat, port: int, protocol: string) returns (r: Option<(int, Status)>)
      requires id in balancers && port in balancers[id].listeners
      modifies `calls
      ensures old(calls) <= calls <= old(calls) + 1
      ensures r.Some? ==> Readable(ToLower(protocol)) && Clean(fate, old(calls), calls)
      ensures r.Some? ==> var l := balancers[id].listeners[port]; r.value == (l.backendPort, l.status)
      ensures r.None? ==> !Readable(ToLower(protocol)) || !Clean(fate, old(calls), calls)
    {
      var p := ToLower(protocol);
      if p != "tcp" && p != "udp" {
        return None;
      }
      var f := fate(calls);
      calls := calls + 1;
      if f != Delivered {
        return None;
      }
      var l := balancers[id].listeners[port];
      return Some((l.backendPort, l.status));
    }

    // ----- ensureLBListeners -----

    /** The comparison loop: which ports to start, which to delete, what is left to create. */
    method Diff(lb: Snapshot, d: Desired) returns (ok: bool, stopped: seq<int>, removals: seq<int>, expected: Desired)
      requires lb.id in balancers && Lists(lb.listeners, balancers[lb.id].listeners) && WellKeyed(d)
      modifies `calls
      ensures old(calls) <= calls
      ensures ok <==> ReadsSupported(balancers[lb.id].listeners, d) && Clean(fate, old(calls), calls)
      ensures var t := balancers[lb.id].listeners; ok ==> Compared(t, d, t.Keys, stopped, removals, expected)
      ensures StopsAtFault(fate, old(calls), calls)
    {
      ghost var t := balancers[lb.id].listeners;
      ghost var seen: set<int> := {};
      expected, stopped, removals := d, [], [];
      for i := 0 to |lb.listeners|
        invariant old(calls) <= calls && Clean(fate, old(calls), calls)
        invariant seen == set j | 0 <= j < i :: lb.listeners[j].0
        invariant Compared(t, d, seen, stopped, removals, expected)
        invariant forall p :: p in seen && KeyOf(p, t[p].protocol) in d ==> Readable(ToLower(t[p].protocol))
      {
        var (port, protocol) := lb.listeners[i];
        var key := KeyOf(port, protocol);
        assert port !in seen;
        if Matches(d, port, t[port]) {
          CompareMatch(t, d, seen, stopped, removals, expected, port);
        } else {
          CompareOther(t, d, seen, stopped, removals, expected, port);
        }
        seen := seen + {port};
        if key in expected {
          var sp := expected[key];
          var attributes := GetListenerAttributes(lb.id, port, protocol);
          if attributes.None? {
            return false, stopped, removals, expected;
          }
          var (backendPort, status) := attributes.value;
          if backendPort == sp.nodePort {
            if status == Stopped {
              stopped := stopped + [sp.port];
            }
            expected := expected - {key};
            continue;
          }
        }
        removals := removals + [port];
      }
      assert seen == t.Keys by {
        assert forall p :: p in t ==> p in seen;
      }
      return true, stopped, removals, expected;
    }

    method StartAll(id: nat, d: Desired, o: Options, ports: seq<int>)
      returns (ok: bool, ghost done: seq<Call<Options>>)
      requires id in balancers && WellKeyed(d)
      requires Distinct(ports) && ToSet(ports) == Idle(balancers[id].listeners, d)
      modifies `calls, `balancers, `log, `tried
      ensures old(calls) <= calls
      ensures Progress(old(balancers), id, d, o, done, balancers)
      ensures Recorded(old(log), old(tried), id, done, ok, Left(balancers, id, d), log, tried)
      ensures var t, t' := old(balancers[id].listeners), balancers[id].listeners; ok ==>
        Idle(t', d) == {} && Wrong(t', d) == Wrong(t, d) && Missing(t', d) == Missing(t, d)
      ensures ok <==> Clean(fate, old(calls), calls)
      ensures StopsAtFault(fate, old(calls), calls)
    {
      done := [];
      ghost var t := balancers[id].listeners;
      for i := 0 to |ports|
        invariant old(calls) <= calls && Clean(fate, old(calls), calls)
        invariant Progress(old(balancers), id, d, o, done, balancers)
        invariant Recorded(old(log), old(tried), id, done, true, 0, log, tried)
        invariant var t' := balancers[id].listeners;
          Idle(t', d) == ToSet(ports[i..]) && Wrong(t', d) == Wrong(t, d) && Missing(t', d) == Missing(t, d)
      {
        Dropped(ports, i);
        StartStep(balancers[id].listeners, d, ports[i]);
        ghost var log1, tried1, more := log, tried, [];
        ok, more := Advance(id, d, o, Start(ports[i]), old(balancers), done);
        RecordsCompose(old(log), old(tried), id, done, log1, tried1, more, ok, Left(balancers, id, d), log, tried);
        done := done + more;
        if !ok {
          return false, done;
        }
      }
      return true, done;
    }

    method DeleteAll(id: nat, d: Desired, o: Options, ports: seq<int>)
      returns (ok: bool, ghost done: seq<Call<Options>>)
      requires id in balancers && WellKeyed(d)
      requires Distinct(ports) && ToSet(ports) == Wrong(balancers[id].listeners, d)
      requires Idle(balancers[id].listeners, d) == {}
      modifies `calls, `balancers, `log, `tried
      ensures old(calls) <= calls
      ensures Progress(old(balancers), id, d, o, done, balancers)
      ensures Recorded(old(log), old(tried), id, done, ok, Left(balancers, id, d), log, tried)
      ensures var t, t' := old(balancers[id].listeners), balancers[id].listeners; ok ==>
        Wrong(t', d) == {} && Idle(t', d) == Idle(t, d) && Missing(t', d) == Missing(t, d)
      ensures ok <==> Clean(fate, old(calls), calls)
      ensures StopsAtFault(fate, old(calls), calls)
    {
      done := [];
      ghost var t := balancers[id].listeners;
      for i := 0 to |ports|
        invariant old(calls) <= calls && Clean(fate, old(calls), calls)
        invariant Progress(old(balancers), id, d, o, done, balancers)
        invariant Recorded(old(log), old(tried), id, done, true, 0, log, tried)
        invariant var t' := balancers[id].listeners;
          Wrong(t', d) == ToSet(ports[i..]) && Idle(t', d) == Idle(t, d) && Missing(t', d) == Missing(t, d)
      {
        Dropped(ports, i);
        DeleteStep(balancers[id].listeners, d, ports[i]);
        ghost var log1, tried1, more := log, tried, [];
        ok, more := Advance(id, d, o, Delete(ports[i]), old(balancers), done);
        RecordsCompose(old(log), old(tried), id, done, log1, tried1, more, ok, Left(balancers, id, d), log, tried);
        done := done + more;
        if !ok {
          return false, done;
        }
      }
      return true, done;
    }

    static function CreateCall(sp: ServicePort, o: Options): Call<Options> {
      Create(sp.port, if sp.protocol == "TCP" then "tcp" else "udp", sp.nodePort, o)
    }

    /** Creating the listener of a missing key is useful, and so is starting it then, unless its port is taken
        by another desired listener. */
    static lemma CreateThenStart(t: Table<Options>, d: Desired, o: Options, k: Key)
      requires WellKeyed(d) && Wrong(t, d) == {} && Idle(t, d) == {} && k in Missing(t, d) && Creatable(d[k].protocol)
      ensures var c := CreateCall(d[k], o); var t1 := Apply(t, c); var t2 := Apply(t1, Start(d[k].port));
        if d[k].port in t then
          !Accepts(t, c) && Weight(t, d) > 0 && !DistinctPorts(d)
        else
          && Useful(t, d, o, c) && Accepts(t, c) && Useful(t1, d, o, Start(d[k].port)) && Accepts(t1, Start(d[k].port))
          && Wrong(t2, d) == {} && Idle(t2, d) == {} && Missing(t2, d) == Missing(t, d) - {k}
    {
      var sp, c := d[k], CreateCall(d[k], o);
      ToLowerSupported();
      ToLowerIdempotent(sp.protocol);
      assert k == (c.port, c.protocol);
      if sp.port in t {
        assert sp.port !in Wrong(t, d);
        assert KeyOf(sp.port, t[sp.port].protocol) in d;
        assert Missing(t, d) != {};
      } else {
        CreateStep(t, d, c);
        StartStep(Apply(t, c), d, sp.port);
      }
    }

    /** Creates the listener for key k, then starts it. */
    method CreateOne(id: nat, d: Desired, o: Options, k: Key) returns (ok: bool, ghost done: seq<Call<Options>>)
      requires id in balancers && WellKeyed(d)
      requires var t := balancers[id].listeners; Wrong(t, d) == {} && Idle(t, d) == {} && k in Missing(t, d)
      modifies `calls, `balancers, `log, `tried
      ensures old(calls) <= calls
      ensures Progress(old(balancers), id, d, o, done, balancers)
      ensures Recorded(old(log), old(tried), id, done, ok, Left(balancers, id, d), log, tried)
      ensures var t, t' := old(balancers[id].listeners), balancers[id].listeners; ok ==>
        Wrong(t', d) == {} && Idle(t', d) == {} && Missing(t', d) == Missing(t, d) - {k} && Creatable(d[k].protocol)
      ensures ok ==> Clean(fate, old(calls), calls)
      ensures !ok ==> !Clean(fate, old(calls), calls) || !Creatable(d[k].protocol) || !DistinctPorts(d)
      ensures StopsAtFault(fate, old(calls), calls)
    {
      done := [];
      var sp := d[k];
      if sp.protocol != "TCP" && sp.protocol != "UDP" {
        return false, done;
      }
      CreateThenStart(balancers[id].listeners, d, o, k);
      ok, done := Advance(id, d, o, CreateCall(sp, o), old(balancers), []);
      assert [] + done == done;
      if !ok {
        return;
      }
      ghost var log1, tried1, more := log, tried, [];
      ok, more := Advance(id, d, o, Start(sp.port), old(balancers), done);
      RecordsCompose(old(log), old(tried), id, done, log1, tried1, more, ok, Left(balancers, id, d), log, tried);
      done := done + more;
    }

    static lemma NothingLeft(t: Table<Options>, d: Desired)
      requires WellKeyed(d) && Wrong(t, d) == {} && Idle(t, d) == {} && Missing(t, d) == {}
      ensures Converged(t, d)
    {
      WeightlessIffConverged(t, d);
    }

    static lemma AllCreatable(t: Table<Options>, d: Desired, keys: seq<Key>)
      requires ToSet(keys) == Missing(t, d)
      requires forall j :: 0 <= j < |keys| ==> keys[j] in d && Creatable(d[keys[j]].protocol)
      ensures CreatesSupported(t, d)
    {
      forall k | k in Missing(t, d)
        ensures Creatable(d[k].protocol)
      {
        assert k in ToSet(keys);
      }
    }

    method CreateAll(id: nat, d: Desired, o: Options, expected: Desired)
      returns (ok: bool, ghost done: seq<Call<Options>>)
      requires id in balancers && WellKeyed(d)
      requires var t := balancers[id].listeners;
        Wrong(t, d) == {} && Idle(t, d) == {} && expected.Keys == Missing(t, d)
      modifies `calls, `balancers, `log, `tried
      ensures old(calls) <= calls
      ensures Progress(old(balancers), id, d, o, done, balancers)
      ensures Recorded(old(log), old(tried), id, done, ok, Left(balancers, id, d), log, tried)
      ensures ok ==> Converged(balancers[id].listeners, d) && CreatesSupported(old(balancers[id].listeners), d)
      ensures ok ==> Clean(fate, old(calls), calls)
      ensures !ok ==>
        !Clean(fate, old(calls), calls) || !CreatesSupported(old(balancers[id].listeners), d) || !DistinctPorts(d)
      ensures StopsAtFault(fate, old(calls), calls)
    {
      done := [];
      ghost var t := balancers[id].listeners;
      var keys := Enumerate(expected);
      for i := 0 to |keys|
        invariant old(calls) <= calls && Clean(fate, old(calls), calls)
        invariant Progress(old(balancers), id, d, o, done, balancers)
        invariant Recorded(old(log), old(tried), id, done, true, 0, log, tried)
        invariant var t' := balancers[id].listeners;
          Wrong(t', d) == {} && Idle(t', d) == {} && Missing(t', d) == ToSet(keys[i..])
        invariant ToSet(keys) == Missing(t, d)
        invariant forall j :: 0 <= j < i ==> keys[j] in d && Creatable(d[keys[j]].protocol)
      {
        Dropped(keys, i);
        assert keys[i] in ToSet(keys);
        ghost var s1, log1, tried1, more := balancers, log, tried, [];
        ok, more := CreateOne(id, d, o, keys[i]);
        ProgressComposes(old(balancers), id, d, o, done, s1, more, balancers);
        RecordsCompose(old(log), old(tried), id, done, log1, tried1, more, ok, Left(balancers, id, d), log, tried);
        done := done + more;
        if !ok {
          return false, done;
        }
      }
      NothingLeft(balancers[id].listeners, d);
      AllCreatable(t, d, keys);
      return true, done;
    }

    /** Carries out a comparison: starts, then deletions, then creations. */
    method ApplyDiff(id: nat, d: Desired, o: Options, stopped: seq<int>, removals: seq<int>, expected: Desired)
      returns (ok: bool, ghost done: seq<Call<Options>>)
      requires id in balancers && WellKeyed(d)
      requires Compared(balancers[id].listeners, d, balancers[id].listeners.Keys, stopped, removals, expected)
      modifies `calls, `balancers, `log, `tried
      ensures old(calls) <= calls
      ensures Progress(old(balancers), id, d, o, done, balancers)
      ensures Recorded(old(log), old(tried), id, done, ok, Left(balancers, id, d), log, tried)
      ensures ok ==> Converged(balancers[id].listeners, d) && CreatesSupported(old(balancers[id].listeners), d)
      ensures ok ==> Clean(fate, old(calls), calls)
      ensures !ok ==>
        !Clean(fate, old(calls), calls) || !CreatesSupported(old(balancers[id].listeners), d) || !DistinctPorts(d)
      ensures StopsAtFault(fate, old(calls), calls)
    {
      ghost var t := balancers[id].listeners;
      assert Idle(t, d) * t.Keys == Idle(t, d) && Wrong(t, d) * t.Keys == Wrong(t, d);
      assert expected.Keys == Missing(t, d);
      ok, done := StartAll(id, d, o, stopped);
      if !ok {
        return;
      }
      ghost var s1, log1, tried1, more := balancers, log, tried, [];
      ok, more := DeleteAll(id, d, o, removals);
      ProgressComposes(old(balancers), id, d, o, done, s1, more, balancers);
      RecordsCompose(old(log), old(tried), id, done, log1, tried1, more, ok, Left(balancers, id, d), log, tried);
      done := done + more;
      if !ok {
        return;
      }
      s1, log1, tried1 := balancers, log, tried;
      ok, more := CreateAll(id, d, o, expected);
      ProgressComposes(old(balancers), id, d, o, done, s1, more, balancers);
      RecordsCompose(old(log), old(tried), id, done, log1, tried1, more, ok, Left(balancers, id, d), log, tried);
      done := done + more;
    }

    /** Brings the listeners of lb to what the service ports ask for. Every call that takes effect is
        useful, and no more calls are made than the weight of the table, so none on a converged one; success
        means the table is the synced one and was reached with the fewest calls; undisturbed, the sync
        succeeds exactly when the desire is one the balancer can carry. */
    method EnsureListeners(lb: Snapshot, ports: seq<ServicePort>, options: Options)
      returns (ok: bool, ghost done: seq<Call<Options>>)
      requires lb.id in balancers && Lists(lb.listeners, balancers[lb.id].listeners)
      modifies `calls, `balancers, `log, `tried
      ensures old(calls) <= calls
      ensures Progress(old(balancers), lb.id, Expected(ports), options, done, balancers)
      ensures Recorded(old(log), old(tried), lb.id, done, ok, Left(balancers, lb.id, Expected(ports)), log, tried)
      ensures tried <= old(tried) + Weight(old(balancers[lb.id].listeners), Expected(ports))
      ensures Converged(old(balancers[lb.id].listeners), Expected(ports)) ==> log == old(log) && tried == old(tried)
      ensures var t, d := old(balancers[lb.id].listeners), Expected(ports); ok ==>
        && Syncable(t, d)
        && balancers == WithListeners(old(balancers), lb.id, Synced(t, d, options))
        && Converged(balancers[lb.id].listeners, d)
        && |done| == Weight(t, d) == tried - old(tried)
      ensures ok ==> Clean(fate, old(calls), calls)
      ensures Clean(fate, old(calls), calls) ==>
        (ok <==> Syncable(old(balancers[lb.id].listeners), Expected(ports)))
      ensures StopsAtFault(fate, old(calls), calls)
    {
      var d := BuildExpected(ports);
      done := [];
      ghost var t := balancers[lb.id].listeners;
      var stopped, removals, expected;
      ok, stopped, removals, expected := Diff(lb, d);
      if ok {
        ok, done := ApplyDiff(lb.id, d, options, stopped, removals, expected);
      }
      RunSpendsWeight(t, d, options, done);
      WeightlessIffConverged(t, d);
      if ok {
        Confluence(t, d, options, done);
        WeightlessIffConverged(balancers[lb.id].listeners, d);
      }
    }

    static method BuildExpected(ports: seq<ServicePort>) returns (expected: Desired)
      ensures expected == Expected(ports)
    {
      expected := map[];
      for i := 0 to |ports|
        invariant expected == Expected(ports[..i])
      {
        assert ports[..i + 1][..i] == ports[..i];
        var p := ports[i];
        if p.nodePort == 0 {
          continue;
        }
        expected := expected[KeyOf(p.port, p.protocol) := p];
      }
      assert ports[..|ports|] == ports;
    }

    // ----- ensureLBBackends -----

    static ghost function WithBackends(s: Balancers, id: nat, b: map<string, int>): Balancers
      requires id in s
    {
      s[id := s[id].(backends := b)]
    }

    static lemma WithBackendsTwice(s: Balancers, id: nat, x: map<string, int>, y: map<string, int>)
      requires id in s
      ensures WithBackends(s, id, s[id].backends) == s
      ensures WithBackends(WithBackends(s, id, x), id, y) == WithBackends(s, id, y)
    {
    }

    method RemoveBackends(id: nat, servers: seq<string>) returns (ok: bool)
      requires id in balancers
      modifies `calls, `balancers
      ensures calls == old(calls) + 1
      ensures ok == (fate(old(calls)) == Delivered)
      ensures ok <==> Clean(fate, old(calls), calls)
      ensures balancers == if fate(old(calls)) == Rejected then old(balancers)
        else WithBackends(old(balancers), id, old(balancers[id].backends) - ToSet(servers))
    {
      var f := fate(calls);
      calls := calls + 1;
      if f == Rejected {
        return false;
      }
      var b := balancers[id];
      balancers := balancers[id := b.(backends := b.backends - ToSet(servers))];
      return f == Delivered;
    }

    /** Adds backends that are not there yet. */
    method AddBackends(id: nat, additions: map<string, int>) returns (ok: bool)
      requires id in balancers
      modifies `calls, `balancers
      ensures calls == old(calls) + 1
      ensures ok == (fate(old(calls)) == Delivered)
      ensures ok <==> Clean(fate, old(calls), calls)
      ensures balancers == if fate(old(calls)) == Rejected then old(balancers)
        else WithBackends(old(balancers), id, additions + old(balancers[id].backends))
    {
      var f := fate(calls);
      calls := calls + 1;
      if f == Rejected {
        return false;
      }
      var b := balancers[id];
      balancers := balancers[id := b.(backends := additions + b.backends)];
      return f == Delivered;
    }

    /** Which servers to remove and which to add. */
    static method DiffBackends(actual: seq<string>, instances: seq<Instance>)
      returns (removals: seq<string>, additions: map<string, int>)
      requires Distinct(actual)
      ensures ToSet(removals) == ToSet(actual) - Ids(instances)
      ensures removals == [] <==> ToSet(removals) == {}
      ensures additions == map s | s in Ids(instances) && s !in ToSet(actual) :: NEW_WEIGHT
    {
      ghost var want := Ids(instances);
      var expected: map<string, bool> := map[];
      for i := 0 to |instances|
        invariant expected.Keys == Ids(instances[..i])
      {
        assert instances[..i + 1] == instances[..i] + [instances[i]];
        expected := expected[instances[i].id := true];
      }
      assert instances[..|instances|] == instances;
      removals := [];
      for i := 0 to |actual|
        invariant expected.Keys == want - ToSet(actual[..i])
        invariant ToSet(removals) == ToSet(actual[..i]) - want
        invariant removals != [] ==> removals[0] in ToSet(removals)
      {
        assert actual[..i + 1] == actual[..i] + [actual[i]];
        assert actual[i] !in ToSet(actual[..i]);
        ToSetAppend(actual[..i], actual[i]);
        ToSetAppend(removals, actual[i]);
        if actual[i] in expected {
          expected := expected - {actual[i]};
          continue;
        }
        removals := removals + [actual[i]];
      }
      assert actual[..|actual|] == actual;
      additions := map s | s in expected :: NEW_WEIGHT;
    }

    static lemma DiffIsSync(b: map<string, int>, want: set<string>, removals: set<string>, additions: map<string, int>)
      requires removals == b.Keys - want && additions == map s | s in want && s !in b :: NEW_WEIGHT
      ensures b - removals == Retained(b, want)
      ensures additions + Retained(b, want) == SyncedBackends(b, want)
      ensures removals == {} ==> Retained(b, want) == b
      ensures additions == map[] ==> Retained(b, want) == SyncedBackends(b, want)
      ensures b.Keys == want ==> removals == {} && additions == map[]
    {
      assert additions == map[] ==> additions + Retained(b, want) == Retained(b, want);
    }

    /** At most one removal and one addition, in that order. */
    method ApplyBackends(id: nat, removals: seq<string>, additions: map<string, int>) returns (ok: bool)
      requires id in balancers
      modifies `calls, `balancers
      ensures old(calls) <= calls <= old(calls) + 2 && id in balancers
      ensures removals == [] && additions == map[] ==> calls == old(calls) && balancers == old(balancers)
      ensures balancers == WithBackends(old(balancers), id, balancers[id].backends)
      ensures var b, b' := old(balancers[id].backends), balancers[id].backends;
        var c := b - ToSet(removals);
        (b' == b || b' == c || b' == additions + c) && (ok ==> b' == additions + c)
      ensures ok <==> Clean(fate, old(calls), calls)
      ensures StopsAtFault(fate, old(calls), calls)
    {
      ghost var s, b := balancers, balancers[id].backends;
      ghost var c := b - ToSet(removals);
      WithBackendsTwice(s, id, c, additions + c);
      assert removals == [] ==> c == b;
      assert additions == map[] ==> additions + c == c;
      if |removals| > 0 {
        ok := RemoveBackends(id, removals);
        if !ok {
          return false;
        }
      }
      assert balancers == WithBackends(s, id, c);
      if |additions| > 0 {
        ok := AddBackends(id, additions);
        return;
      }
      return true;
    }

    /** Leaves exactly the given instances as backends; no call at all when nothing is to change. */
    method EnsureBackends(lb: Snapshot, instances: seq<Instance>) returns (ok: bool)
      requires lb.id in balancers
      requires Distinct(lb.backends) && ToSet(lb.backends) == balancers[lb.id].backends.Keys
      modifies `calls, `balancers
      ensures old(calls) <= calls <= old(calls) + 2
      ensures lb.id in balancers
      ensures balancers == WithBackends(old(balancers), lb.id, balancers[lb.id].backends)
      ensures BackendStage(old(balancers[lb.id].backends), Ids(instances), balancers[lb.id].backends)
      ensures ok ==> balancers[lb.id].backends == SyncedBackends(old(balancers[lb.id].backends), Ids(instances))
      ensures ok <==> Clean(fate, old(calls), calls)
      ensures old(balancers[lb.id].backends).Keys == Ids(instances) ==>
        ok && calls == old(calls) && balancers == old(balancers)
      ensures StopsAtFault(fate, old(calls), calls)
    {
      var removals, additions := DiffBackends(lb.backends, instances);
      DiffIsSync(balancers[lb.id].backends, Ids(instances), ToSet(removals), additions);
      ok := ApplyBackends(lb.id, removals, additions);
    }

    // ----- Looking up, creating and deleting balancers -----

    ghost predicate Valid()
      reads this
    {
      forall id :: id in balancers ==> id < nextId
    }

    /** Created balancers are listed at once. */
    ghost predicate Prompt() {
      forall k: nat :: lag(k) == 0
    }

    /** lb reports the balancer as it is now. */
    ghost predicate Current(lb: Snapshot)
      reads this
    {
      && lb.id in balancers
      && Lists(lb.listeners, balancers[lb.id].listeners)
      && Distinct(lb.backends) && ToSet(lb.backends) == balancers[lb.id].backends.Keys
    }

    method Describe(id: nat) returns (lb: Snapshot)
      requires id in balancers
      ensures lb.id == id && Current(lb)
    {
      var b := balancers[id];
      var ports := Enumerate(b.listeners);
      var ls: seq<(int, string)> := [];
      for i := 0 to |ports|
        invariant |ls| == i
        invariant forall j :: 0 <= j < i ==>
          ports[j] in b.listeners && ls[j] == (ports[j], b.listeners[ports[j]].protocol)
      {
        assert ports[i] in ToSet(ports);
        ls := ls + [(ports[i], b.listeners[ports[i]].protocol)];
      }
      forall p | p in b.listeners
        ensures exists j :: 0 <= j < |ls| && ls[j].0 == p
      {
        assert p in ToSet(ports);
        var j :| 0 <= j < |ports| && ports[j] == p;
        assert ls[j].0 == p;
      }
      var servers := Enumerate(b.backends);
      return Snapshot(id, ls, servers);
    }

    /** The first listed balancer of that name, with its attributes. */
    method GetLoadBalancer(name: string) returns (r: Answer)
      modifies `calls
      ensures old(calls) < calls <= old(calls) + 2
      ensures (r.Absent? ==> calls == old(calls) + 1) && (r.Present? ==> calls == old(calls) + 2)
      ensures r.Present? ==>
        Current(r.lb) && balancers[r.lb.id].name == name && balancers[r.lb.id].visibleFrom <= old(calls)
      ensures r.Absent? <==> fate(old(calls)) == Delivered && Unlisted(balancers, name, old(calls))
      ensures r.Failed? <==> !Clean(fate, old(calls), calls)
      ensures LastLook(fate, balancers, name, calls, r)
      ensures StopsAtFault(fate, old(calls), calls)
    {
      var now := calls;
      calls := calls + 1;
      if fate(now) != Delivered {
        return Failed;
      }
      var ids := Enumerate(balancers);
      for i := 0 to |ids|
        invariant calls == now + 1
        invariant forall j :: 0 <= j < i ==>
          ids[j] in balancers && !(balancers[ids[j]].name == name && balancers[ids[j]].visibleFrom <= now)
      {
        assert ids[i] in ToSet(ids);
        if balancers[ids[i]].name == name && balancers[ids[i]].visibleFrom <= now {
          var f := fate(calls);
          calls := calls + 1;
          if f != Delivered {
            return Failed;
          }
          var lb := Describe(ids[i]);
          return Present(lb);
        }
      }
      assert forall id :: id in balancers ==> id in ToSet(ids);
      return Absent;
    }

    method CreateLoadBalancer(name: string) returns (ok: bool)
      requires Valid()
      modifies `calls, `balancers, `nextId
      ensures Valid()
      ensures calls == old(calls) + 1
      ensures ok == (fate(old(calls)) == Delivered)
      ensures fate(old(calls)) == Rejected ==> balancers == old(balancers) && nextId == old(nextId)
      ensures fate(old(calls)) != Rejected ==>
        balancers == old(balancers)[old(nextId) := Blank(name, calls + lag(old(calls)))] && nextId == old(nextId) + 1
    {
      var f := fate(calls);
      var late := lag(calls);
      calls := calls + 1;
      if f == Rejected {
        return false;
      }
      balancers := balancers[nextId := Blank(name, calls + late)];
      nextId := nextId + 1;
      return f == Delivered;
    }

    method DeleteLoadBalancer(id: nat) returns (ok: bool)
      modifies `calls, `balancers
      ensures calls == old(calls) + 1
      ensures ok == (fate(old(calls)) == Delivered)
      ensures balancers == if fate(old(calls)) == Rejected then old(balancers) else old(balancers) - {id}
    {
      var f := fate(calls);
      calls := calls + 1;
      if f == Rejected {
        return false;
      }
      balancers := balancers - {id};
      return f == Delivered;
    }

    // ----- The operations of the provider -----

    /** Finds the balancer of that name or creates one and waits for it to be listed, at most three
        times. `base` is the account once the balancer exists. */
    method FindOrCreate(name: string) returns (r: Answer, ghost base: Balancers)
      requires Valid()
      modifies `calls, `balancers, `nextId
      ensures Valid() && balancers == base
      ensures Searched(fate, old(balancers), old(calls), old(nextId), lag(old(calls) + 1), name, r, calls, base)
      ensures nextId == if base == old(balancers) then old(nextId) else old(nextId) + 1
      ensures Prompt() && base != old(balancers) ==> base[old(nextId)].visibleFrom <= calls
      ensures r.Present? ==> Current(r.lb) && balancers[r.lb.id].name == name
      ensures Clean(fate, old(calls), calls) && UniqueNames(old(balancers)) ==>
        (UniqueNames(balancers) <==> Findable(old(balancers), name, old(calls)))
    {
      base := balancers;
      r := GetLoadBalancer(name);
      if r.Absent? {
        r, base := CreateAndWait(name);
        CleanSplits(fate, old(calls), old(calls) + 1, calls);
      } else if r.Present? {
        FoundSearch(base, old(calls), name, lag(old(calls) + 1), r);
      }
      CreatedIsUnique(old(balancers), old(calls), name, old(nextId), base);
    }

    /** Creates a balancer that the listing just made does not show, and waits for it to be listed. */
    method CreateAndWait(name: string) returns (r: Answer, ghost base: Balancers)
      requires Valid() && calls > 0 && Unlisted(balancers, name, calls - 1)
      modifies `calls, `balancers, `nextId
      ensures Valid() && old(calls) < calls <= old(calls) + 7
      ensures balancers == base
      ensures base != old(balancers) ==>
        base == old(balancers)[old(nextId) := Blank(name, old(calls) + 1 + lag(old(calls)))]
      ensures nextId == if base == old(balancers) then old(nextId) else old(nextId) + 1
      ensures base != old(balancers) <==> fate(old(calls)) != Rejected
      ensures r.Present? ==> Current(r.lb) && balancers[r.lb.id].name == name
      ensures LastLook(fate, base, name, calls, r)
      ensures if fate(old(calls)) == Delivered then !r.Present? ==> old(calls) + 4 <= calls
        else r.Failed? && calls == old(calls) + 1
      ensures Prompt() && base != old(balancers) ==> base[old(nextId)].visibleFrom <= calls
      ensures Clean(fate, old(calls), calls) ==>
        CleanSearch(old(balancers), old(calls) - 1, name, lag(old(calls)), base, r)
    {
      ghost var id := nextId;
      assert id !in balancers;
      var ok := CreateLoadBalancer(name);
      base := balancers;
      if !ok {
        return Failed, base;
      }
      r := Poll(name);
      if Clean(fate, old(calls), calls) {
        CreatedSearch(old(balancers), old(calls) - 1, name, lag(old(calls)), id, base, r);
      }
    }

    /** Looks for the balancer until it is listed, at most three times. A failed look does not end it. */
    method Poll(name: string) returns (r: Answer)
      modifies `calls
      ensures old(calls) + (if r.Present? then 2 else 3) <= calls <= old(calls) + 6
      ensures r.Present? ==> Current(r.lb) && balancers[r.lb.id].name == name
      ensures LastLook(fate, balancers, name, calls, r)
      ensures Clean(fate, old(calls), calls) ==>
        !r.Failed? && (r.Absent? <==> Unlisted(balancers, name, old(calls) + 2))
    {
      ghost var start := calls;
      r := Absent;
      var retry := 3;
      while retry > 0
        invariant 0 <= retry <= 3 && !r.Present?
        invariant start + 3 - retry <= calls <= start + 2 * (3 - retry)
        invariant retry < 3 ==> LastLook(fate, balancers, name, calls, r)
        invariant Clean(fate, start, calls) ==> calls == start + 3 - retry
      {
        r := GetLoadBalancer(name);
        if r.Present? {
          break;
        }
        retry := retry - 1;
      }
    }

    static method Validate(svc: Service) returns (ok: bool)
      ensures ok == Acceptable(svc)
      ensures ok <==>
        && svc.affinity == "None" && svc.loadBalancerIP == ""
        && forall i :: 0 <= i < |svc.ports| ==> svc.ports[i].protocol == "TCP" || svc.ports[i].protocol == "UDP"
    {
      if svc.affinity != "None" {
        return false;
      }
      for i := 0 to |svc.ports|
        invariant forall j :: 0 <= j < i ==> Creatable(svc.ports[j].protocol)
      {
        if svc.ports[i].protocol != "TCP" && svc.ports[i].protocol != "UDP" {
          return false;
        }
      }
      return svc.loadBalancerIP == "";
    }

    /** The annotations are read into fresh options; a failure is only logged. */
    static method ReadOptions(svc: Service) returns (o: Options)
      ensures o == OptionsOf(svc)
    {
      if svc.annotations.None? {
        return ZERO_OPTIONS;
      }
      var fields := new Value[|ZERO_OPTIONS|](i requires 0 <= i < |ZERO_OPTIONS| => ZERO_OPTIONS[i]);
      assert fields[..] == ZERO_OPTIONS;
      var annotations := new StringMap(svc.annotations.value);
      var _ := MapToStruct(annotations, OPTION_FIELDS, fields, ANNOTATION_PREFIX);
      return fields[..];
    }

    /** Listener calls that took the account from s to s1, and then a change of backends to s2, move the
        balancer; a full sync of both reconciles it. */
    static lemma ListenersThenBackends(s: Balancers, id: nat, d: Desired, o: Options, want: set<string>,
                                       done: seq<Call<Options>>, s1: Balancers, s2: Balancers)
      requires Progress(s, id, d, o, done, s1) && id in s2 && s2 == WithBackends(s1, id, s2[id].backends)
      requires BackendStage(s[id].backends, want, s2[id].backends)
      ensures MovedBy(s, id, s[id].name, d, o, want, s2, done)
      ensures s2[id].listeners == s1[id].listeners
      ensures DistinctPorts(d) && s1[id].listeners == Synced(s[id].listeners, d, o) ==>
        s2[id].backends == SyncedBackends(s[id].backends, want) ==> s2 == s[id := Reconciled(s[id], d, o, want)]
    {
      assert s2[id] == s[id].(listeners := s1[id].listeners, backends := s2[id].backends);
    }

    /** Listeners first, then backends. */
    method Reconcile(lb: Snapshot, ports: seq<ServicePort>, o: Options, instances: seq<Instance>)
      returns (ok: bool, ghost done: seq<Call<Options>>)
      requires Current(lb)
      modifies `calls, `balancers, `log, `tried
      ensures old(calls) <= calls
      ensures var s, d, want := old(balancers), Expected(ports), Ids(instances);
        && MovedBy(s, lb.id, s[lb.id].name, d, o, want, balancers, done)
        && (ok ==> Syncable(s[lb.id].listeners, d) && balancers == s[lb.id := Reconciled(s[lb.id], d, o, want)])
      ensures Recorded(old(log), old(tried), lb.id, done, ok, Left(balancers, lb.id, Expected(ports)), log, tried)
      ensures !Syncable(old(balancers[lb.id].listeners), Expected(ports)) ==>
        balancers[lb.id].backends == old(balancers[lb.id].backends)
      ensures ok <==> Clean(fate, old(calls), calls) && Syncable(old(balancers[lb.id].listeners), Expected(ports))
      ensures StopsAtFault(fate, old(calls), calls)
    {
      ok, done := EnsureListeners(lb, ports, o);
      ghost var s1 := balancers;
      if ok {
        ok := EnsureBackends(lb, instances);
      }
      ListenersThenBackends(old(balancers), lb.id, Expected(ports), o, Ids(instances), done, s1, balancers);
    }

    /** The part of EnsureLoadBalancer after the search for the balancer. */
    method ReconcileFound(answer: Answer, svc: Service, instances: seq<Instance>)
      returns (r: EnsureResult, ghost id: nat, ghost done: seq<Call<Options>>)
      requires Valid() && Acceptable(svc)
      requires answer.Present? ==> Current(answer.lb) && balancers[answer.lb.id].name == LoadBalancerName(svc.uid)
      modifies `calls, `balancers, `log, `tried
      ensures old(calls) <= calls && (!answer.Present? ==> balancers == old(balancers) && calls == old(calls))
      ensures EnsureOutcome(old(balancers), svc, Ids(instances), r, balancers, id, done)
      ensures Recorded(old(log), old(tried), id, done, r.Ready?, Left(balancers, id, Expected(svc.ports)), log, tried)
      ensures balancers.Keys == old(balancers).Keys
      ensures r == Nil <==> answer.Absent?
      ensures answer.Failed? ==> r == Error
      ensures r.Ready? <==>
        answer.Present? && Clean(fate, old(calls), calls) && DistinctPorts(Expected(svc.ports))
      ensures StopsAtFault(fate, old(calls), calls)
    {
      id, done := nextId, [];
      var o := ReadOptions(svc);
      match answer
      case Failed => return Error, id, done;
      case Absent => return Nil, id, done;
      case Present(lb) =>
        AcceptableSyncable(svc, balancers[lb.id].listeners);
        id := lb.id;
        var ok;
        ok, done := Reconcile(lb, svc.ports, o, instances);
        r := if ok then Ready(lb.id) else Error;
    }

    /** The part of EnsureLoadBalancer after its checks and the node lookup. */
    method EnsureAccepted(svc: Service, instances: seq<Instance>)
      returns (r: EnsureResult, ghost base: Balancers, ghost id: nat, ghost done: seq<Call<Options>>)
      requires Valid() && Acceptable(svc)
      modifies this
      ensures Valid()
      ensures OpStep(old(balancers), old(calls), LoadBalancerName(svc.uid), Prompt(), balancers, calls)
      ensures nextId == if base == old(balancers) then old(nextId) else old(nextId) + 1
      ensures Ensured(old(balancers), old(calls), old(nextId), lag(old(calls) + 1), svc, Ids(instances),
                      Clean(fate, old(calls), calls), r, base, id, done, balancers, calls)
      ensures Recorded(old(log), old(tried), id, done, r.Ready?, Left(balancers, id, Expected(svc.ports)), log, tried)
    {
      var name := LoadBalancerName(svc.uid);
      var answer;
      answer, base := FindOrCreate(name);
      ghost var mid := calls;
      r, id, done := ReconcileFound(answer, svc, instances);
      SearchThenReconcile(fate, old(balancers), old(calls), old(nextId), lag(old(calls) + 1), svc, Ids(instances),
                          Prompt(), answer, mid, r, base, id, done, balancers, calls);
    }

    /** Makes the balancer of a service exist and match it. A service that is not acceptable or whose
        nodes cannot be resolved changes nothing. `base` is the account once the balancer, id, exists, and
        `done` are the listener calls that took effect. */
    method EnsureLoadBalancer(svc: Service, inventory: Option<seq<Instance>>, kind: NodeNameType, nodes: seq<string>)
      returns (r: EnsureResult, ghost base: Balancers, ghost id: nat, ghost done: seq<Call<Options>>)
      requires Valid()
      modifies this
      ensures Valid()
      ensures OpStep(old(balancers), old(calls), LoadBalancerName(svc.uid), Prompt(), balancers, calls)
      ensures nextId == if base == old(balancers) then old(nextId) else old(nextId) + 1
      ensures var found := Looked(inventory, kind, nodes);
        if !Acceptable(svc) || found.Err? then
          r == Error && calls == old(calls) && base == balancers == old(balancers) && done == [] && id !in base
        else
          Ensured(old(balancers), old(calls), old(nextId), lag(old(calls) + 1), svc, Ids(found.value),
                  Clean(fate, old(calls), calls), r, base, id, done, balancers, calls)
      ensures Recorded(old(log), old(tried), id, done, r.Ready?, Left(balancers, id, Expected(svc.ports)), log, tried)
    {
      base, id, done := balancers, nextId, [];
      var valid := Validate(svc);
      if !valid {
        return Error, base, id, done;
      }
      var found := GetInstancesByNodeNames(inventory, kind, nodes);
      if found.Err? {
        return Error, base, id, done;
      }
      r, base, id, done := EnsureAccepted(svc, found.value);
    }

    /** How the two syncs of an update make its outcome: `synced` is the answer of the first, from s to s1. */
    static lemma LateIsUpdate(s: Balancers, id: nat, svc: Service, found: Lookup<seq<Instance>>, clean: bool,
                              synced: bool, s1: Balancers, done: seq<Call<Options>>, ok: bool, s2: Balancers)
      requires Progress(s, id, Expected(svc.ports), OptionsOf(svc), done, s1)
      requires id in s2 && s2 == WithBackends(s1, id, s2[id].backends)
      requires BackendStage(s[id].backends, WantOf(found), s2[id].backends)
      requires synced ==> Syncable(s[id].listeners, Expected(svc.ports))
      requires synced ==> s1[id].listeners == Synced(s[id].listeners, Expected(svc.ports), OptionsOf(svc))
      requires clean ==> (synced <==> Syncable(s[id].listeners, Expected(svc.ports)))
      requires found.Err? || !synced ==> s2[id].backends == s[id].backends
      requires ok ==> synced && found.Ok? && s2[id].backends == SyncedBackends(s[id].backends, WantOf(found))
      requires clean && synced && found.Ok? ==> ok
      requires ok ==> clean
      ensures UpdateOutcome(s, id, svc, found, clean, ok, s2, done)
    {
      ListenersThenBackends(s, id, Expected(svc.ports), OptionsOf(svc), WantOf(found), done, s1, s2);
    }

    /** The node lookup and the backends of an update. */
    method BackendsLate(lb: Snapshot, inventory: Option<seq<Instance>>, kind: NodeNameType, nodes: seq<string>)
      returns (ok: bool)
      requires lb.id in balancers
      requires Distinct(lb.backends) && ToSet(lb.backends) == balancers[lb.id].backends.Keys
      modifies `calls, `balancers
      ensures old(calls) <= calls && lb.id in balancers
      ensures balancers == WithBackends(old(balancers), lb.id, balancers[lb.id].backends)
      ensures var found := Looked(inventory, kind, nodes);
        var b, b' := old(balancers[lb.id].backends), balancers[lb.id].backends;
        && BackendStage(b, WantOf(found), b')
        && (found.Err? ==> !ok && b' == b)
        && (ok ==> b' == SyncedBackends(b, WantOf(found)))
        && (ok <==> found.Ok? && Clean(fate, old(calls), calls))
      ensures StopsAtFault(fate, old(calls), calls)
    {
      var found := GetInstancesByNodeNames(inventory, kind, nodes);
      if found.Err? {
        WithBackendsTwice(balancers, lb.id, map[], map[]);
        return false;
      }
      ok := EnsureBackends(lb, found.value);
    }

    /** Listeners, then node lookup, then backends. */
    method ReconcileLate(lb: Snapshot, svc: Service, inventory: Option<seq<Instance>>, kind: NodeNameType,
                         nodes: seq<string>)
      returns (ok: bool, ghost done: seq<Call<Options>>)
      requires Current(lb)
      modifies `calls, `balancers, `log, `tried
      ensures old(calls) <= calls
      ensures UpdateOutcome(old(balancers), lb.id, svc, Looked(inventory, kind, nodes), Clean(fate, old(calls), calls),
                            ok, balancers, done)
      ensures Recorded(old(log), old(tried), lb.id, done, ok, Left(balancers, lb.id, Expected(svc.ports)), log, tried)
      ensures StopsAtFault(fate, old(calls), calls)
    {
      var o := ReadOptions(svc);
      var synced;
      synced, done := EnsureListeners(lb, svc.ports, o);
      ok := synced;
      ghost var s1 := balancers;
      if ok {
        ok := BackendsLate(lb, inventory, kind, nodes);
      }
      LateIsUpdate(old(balancers), lb.id, svc, Looked(inventory, kind, nodes), Clean(fate, old(calls), calls), synced,
                   s1, done, ok, balancers);
    }

    /** Brings the existing balancer of a service up to date. Nothing is checked first, so a failed node
        lookup leaves the listeners changed. */
    method UpdateLoadBalancer(svc: Service, inventory: Option<seq<Instance>>, kind: NodeNameType, nodes: seq<string>)
      returns (ok: bool, ghost id: nat, ghost done: seq<Call<Options>>)
      requires Valid()
      modifies `calls, `balancers, `log, `tried
      ensures Valid()
      ensures OpStep(old(balancers), old(calls), LoadBalancerName(svc.uid), Prompt(), balancers, calls)
      ensures if id !in old(balancers) then
          !ok && balancers == old(balancers) && done == []
        else
          && old(balancers)[id].name == LoadBalancerName(svc.uid)
          && UpdateOutcome(old(balancers), id, svc, Looked(inventory, kind, nodes), Clean(fate, old(calls), calls), ok,
                           balancers, done)
      ensures Recorded(old(log), old(tried), id, done, ok, Left(balancers, id, Expected(svc.ports)), log, tried)
      ensures Clean(fate, old(calls), calls) && Listed(old(balancers), LoadBalancerName(svc.uid), old(calls)) ==>
        (id in old(balancers) <==> !NoneNamed(old(balancers), LoadBalancerName(svc.uid)))
      ensures StopsAtFault(fate, old(calls), calls)
    {
      id, done := nextId, [];
      var answer := GetLoadBalancer(LoadBalancerName(svc.uid));
      if !answer.Present? {
        return false, id, done;
      }
      id := answer.lb.id;
      ok, done := ReconcileLate(answer.lb, svc, inventory, kind, nodes);
      UpdateIsOpStep(old(balancers), old(calls), nextId, id, svc, Looked(inventory, kind, nodes),
                     Clean(fate, old(calls), calls), Prompt(), ok, balancers, done, calls);
    }

    /** Deletes the balancer of a service if there is one. */
    method EnsureLoadBalancerDeleted(svc: Service) returns (ok: bool)
      requires Valid()
      modifies `calls, `balancers
      ensures Valid()
      ensures OpStep(old(balancers), old(calls), LoadBalancerName(svc.uid), Prompt(), balancers, calls)
      ensures balancers == old(balancers)
        || exists id :: id in old(balancers) && old(balancers)[id].name == LoadBalancerName(svc.uid) &&
             balancers == old(balancers) - {id}
      ensures ok && UniqueNames(old(balancers)) ==>
        (NoneNamed(balancers, LoadBalancerName(svc.uid)) <==>
         Findable(old(balancers), LoadBalancerName(svc.uid), old(calls)))
      ensures ok <==> Clean(fate, old(calls), calls)
      ensures old(calls) < calls
      ensures StopsAtFault(fate, old(calls), calls)
    {
      var answer := GetLoadBalancer(LoadBalancerName(svc.uid));
      match answer
      case Failed => return false;
      case Absent => return true;
      case Present(lb) => ok := DeleteLoadBalancer(lb.id);
    }
  }
}
