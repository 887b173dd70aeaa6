/** The listener table of one balancer: what a service wants of it, the calls that change it,
    and the theory of the reconciler that moves one to the other. */
module Listeners {
  import opened Basics
  import opened Text
  import opened Decimal

  datatype Status = Starting | Running | Configuring | Stopping | Stopped

  /** `options` are the bandwidth and health-check settings given at creation; they are never compared. */
  datatype Listener<Options> = Listener(protocol: string, backendPort: int, status: Status, options: Options)

  /** The cloud keys listeners by port alone: start and delete name only a port. */
  type Table<Options> = map<int, Listener<Options>>

  datatype ServicePort = ServicePort(port: int, protocol: string, nodePort: int)

  /** Port and lower-cased protocol. */
  type Key = (int, string)

  type Desired = map<Key, ServicePort>

  function KeyOf(port: int, protocol: string): Key {
    (port, ToLower(protocol))
  }

  /** The text the source uses as map key. */
  function KeyText(port: int, protocol: string): string {
    Itoa(port) + "|" + ToLower(protocol)
  }

  lemma BarSplits(x: string, u: string, y: string, v: string)
    requires '|' !in x && '|' !in y && x + "|" + u == y + "|" + v
    ensures x == y && u == v
  {
    var s := x + "|" + u;
    assert s[|x|] == '|' && s[|y|] == '|';
    assert forall i :: 0 <= i < |x| ==> s[i] == x[i];
    assert forall i :: 0 <= i < |y| ==> s[i] == y[i];
    assert |x| == |y|;
    assert s[..|x|] == x && s[|x| + 1..] == u;
    assert s[..|y|] == y && s[|y| + 1..] == v;
  }

  /** Two key texts are equal exactly when port and lower-cased protocol are, so the pair can stand for the text. */
  lemma KeyTextFaithful(p: int, a: string, q: int, b: string)
    ensures KeyText(p, a) == KeyText(q, b) <==> KeyOf(p, a) == KeyOf(q, b)
  {
    if KeyText(p, a) == KeyText(q, b) {
      BarSplits(Itoa(p), ToLower(a), Itoa(q), ToLower(b));
      ItoaInjective(p, q);
    }
  }

  /** The listeners a service asks for; a port without a node port is ignored, a later equal key wins. */
  function Expected(ports: seq<ServicePort>): (d: Desired)
    ensures WellKeyed(d)
  {
    if ports == [] then
      map[]
    else
      var sp := ports[|ports| - 1];
      var d := Expected(ports[..|ports| - 1]);
      if sp.nodePort == 0 then d else d[KeyOf(sp.port, sp.protocol) := sp]
  }

  /** Port i is the last of the ports with key k that has a node port. */
  ghost predicate LastFor(ports: seq<ServicePort>, k: Key, i: nat) {
    && i < |ports| && ports[i].nodePort != 0 && KeyOf(ports[i].port, ports[i].protocol) == k
    && forall j :: i < j < |ports| && ports[j].nodePort != 0 ==> KeyOf(ports[j].port, ports[j].protocol) != k
  }

  /** A key is expected exactly when some port with a node port has it, and stands for the last such port. */
  lemma {:induction false} ExpectedIsLast(ports: seq<ServicePort>, k: Key)
    ensures k in Expected(ports) <==> exists i: nat :: LastFor(ports, k, i)
    ensures forall i: nat :: LastFor(ports, k, i) ==> k in Expected(ports) && Expected(ports)[k] == ports[i]
  {
    if ports != [] {
      var n := |ports| - 1;
      var front := ports[..n];
      ExpectedIsLast(front, k);
      if ports[n].nodePort != 0 && KeyOf(ports[n].port, ports[n].protocol) == k {
        assert LastFor(ports, k, n);
      } else {
        assert forall i: nat :: LastFor(ports, k, i) <==> LastFor(front, k, i);
      }
    }
  }

  predicate WellKeyed(d: Desired) {
    forall k :: k in d ==> k == KeyOf(d[k].port, d[k].protocol)
  }

  ghost predicate DistinctPorts(d: Desired) {
    forall j, k :: j in d && k in d && j.0 == k.0 ==> j == k
  }

  /** The listener on port p is one the service asks for. */
  predicate Matches<O>(d: Desired, p: int, l: Listener<O>) {
    var k := KeyOf(p, l.protocol);
    k in d && d[k].nodePort == l.backendPort
  }

  /** Some listener of t is the one asked for under key k. */
  predicate Served<O>(t: Table<O>, d: Desired, k: Key)
    requires k in d
  {
    k.0 in t && KeyOf(k.0, t[k.0].protocol) == k && t[k.0].backendPort == d[k].nodePort
  }

  ghost function Wrong<O>(t: Table<O>, d: Desired): set<int> {
    set p | p in t && !Matches(d, p, t[p])
  }

  ghost function Idle<O>(t: Table<O>, d: Desired): set<int> {
    set p | p in t && Matches(d, p, t[p]) && t[p].status == Stopped
  }

  ghost function Missing<O>(t: Table<O>, d: Desired): set<Key> {
    set k | k in d && !Served(t, d, k)
  }

  /** Exactly the desired listeners, none of them stopped. */
  ghost predicate Converged<O>(t: Table<O>, d: Desired) {
    && (forall p :: p in t ==> Matches(d, p, t[p]) && t[p].status != Stopped)
    && (forall k :: k in d ==> Served(t, d, k))
  }

  /** The work left: one delete per wrong listener, a create and a start per missing one,
      a start per idle one. */
  ghost function Weight<O>(t: Table<O>, d: Desired): nat {
    |Wrong(t, d)| + 2 * |Missing(t, d)| + |Idle(t, d)|
  }

  // ----- The calls -----

  datatype Call<O> =
    | Start(port: int)
    | Delete(port: int)
    | Create(port: int, protocol: string, backendPort: int, options: O)

  /** The assumed API contract: start and delete need the listener, create needs a free port. */
  predicate Accepts<O>(t: Table<O>, c: Call<O>) {
    if c.Create? then c.port !in t else c.port in t
  }

  /** A new listener is stopped. */
  function Apply<O>(t: Table<O>, c: Call<O>): Table<O> {
    if !Accepts(t, c) then
      t
    else
      match c
      case Start(p) => t[p := t[p].(status := Running)]
      case Delete(p) => t - {p}
      case Create(p, proto, b, o) => t[p := Listener(proto, b, Stopped, o)]
  }

  function ApplyAll<O>(t: Table<O>, calls: seq<Call<O>>): Table<O> {
    if calls == [] then t else Apply(ApplyAll(t, calls[..|calls| - 1]), calls[|calls| - 1])
  }

  /** A call the reconciler for d, creating with options o, may make on t: stopped listeners are started
      first, then wrong ones deleted, and only then missing ones created. */
  ghost predicate Useful<O>(t: Table<O>, d: Desired, o: O, c: Call<O>) {
    match c
    case Start(p) => p in Idle(t, d)
    case Delete(p) => p in Wrong(t, d) && Idle(t, d) == {}
    case Create(p, proto, b, opts) =>
      && Idle(t, d) == {} && Wrong(t, d) == {} && p !in t
      && proto == ToLower(proto)
      && (p, proto) in d
      && d[(p, proto)].nodePort == b
      && opts == o
  }

  ghost predicate UsefulRun<O>(t: Table<O>, d: Desired, o: O, calls: seq<Call<O>>) {
    calls == []
    || (var n := |calls| - 1;
        UsefulRun(t, d, o, calls[..n]) && Useful(ApplyAll(t, calls[..n]), d, o, calls[n]))
  }

  // ----- What one call does to the work left -----

  lemma StartStep<O>(t: Table<O>, d: Desired, p: int)
    requires p in t
    ensures var t' := Apply(t, Start(p));
      && Wrong(t', d) == Wrong(t, d) && Missing(t', d) == Missing(t, d)
      && Idle(t', d) == Idle(t, d) - {p}
  {
  }

  lemma DeleteStep<O>(t: Table<O>, d: Desired, p: int)
    requires WellKeyed(d) && p in Wrong(t, d)
    ensures var t' := Apply(t, Delete(p));
      && Wrong(t', d) == Wrong(t, d) - {p} && Missing(t', d) == Missing(t, d)
      && Idle(t', d) == Idle(t, d)
  {
  }

  lemma CreateStep<O>(t: Table<O>, d: Desired, c: Call<O>)
    requires c.Create? && c.port !in t && Matches(d, c.port, Apply(t, c)[c.port])
    ensures var t' := Apply(t, c); var k := KeyOf(c.port, c.protocol);
      && k in Missing(t, d)
      && Wrong(t', d) == Wrong(t, d) && Missing(t', d) == Missing(t, d) - {k}
      && Idle(t', d) == Idle(t, d) + {c.port} && c.port !in Idle(t, d)
  {
  }

  /** Every useful call removes exactly one unit of work. */
  lemma UsefulCallLowersWeight<O>(t: Table<O>, d: Desired, o: O, c: Call<O>)
    requires WellKeyed(d) && Useful(t, d, o, c)
    ensures Accepts(t, c)
    ensures Weight(Apply(t, c), d) == Weight(t, d) - 1
  {
    match c
    case Start(p) => StartStep(t, d, p);
    case Delete(p) => DeleteStep(t, d, p);
    case Create(_, _, _, _) => CreateStep(t, d, c);
  }

  lemma {:induction false} RunSpendsWeight<O>(t: Table<O>, d: Desired, o: O, calls: seq<Call<O>>)
    requires WellKeyed(d) && UsefulRun(t, d, o, calls)
    ensures |calls| + Weight(ApplyAll(t, calls), d) == Weight(t, d)
  {
    if calls != [] {
      var n := |calls| - 1;
      RunSpendsWeight(t, d, o, calls[..n]);
      UsefulCallLowersWeight(ApplyAll(t, calls[..n]), d, o, calls[n]);
    }
  }

  lemma RunExtends<O>(t: Table<O>, d: Desired, o: O, calls: seq<Call<O>>, c: Call<O>)
    requires UsefulRun(t, d, o, calls) && Useful(ApplyAll(t, calls), d, o, c)
    ensures UsefulRun(t, d, o, calls + [c])
    ensures ApplyAll(t, calls + [c]) == Apply(ApplyAll(t, calls), c)
  {
    assert (calls + [c])[..|calls|] == calls;
  }

  lemma {:induction false} RunsCompose<O>(t: Table<O>, d: Desired, o: O, a: seq<Call<O>>, b: seq<Call<O>>)
    requires UsefulRun(t, d, o, a) && UsefulRun(ApplyAll(t, a), d, o, b)
    ensures UsefulRun(t, d, o, a + b)
    ensures ApplyAll(t, a + b) == ApplyAll(ApplyAll(t, a), b)
  {
    if b == [] {
      assert a + b == a;
    } else {
      var n := |b| - 1;
      RunsCompose(t, d, o, a, b[..n]);
      RunExtends(t, d, o, a + b[..n], b[n]);
      assert a + b == (a + b[..n]) + [b[n]];
    }
  }

  /** A history of attempts, each stopped wherever a call failed: attempt i makes the calls runs[i]. */
  ghost predicate Attempts<O>(tables: seq<Table<O>>, d: Desired, o: O, runs: seq<seq<Call<O>>>) {
    && |tables| == |runs| + 1
    && forall i :: 0 <= i < |runs| ==>
         UsefulRun(tables[i], d, o, runs[i]) && tables[i + 1] == ApplyAll(tables[i], runs[i])
  }

  /** All attempts together are one useful run, and so they make no more calls than the first
      table's weight, exactly that many when the last table has converged. */
  lemma {:induction false} AttemptsAreBounded<O>(tables: seq<Table<O>>, d: Desired, o: O, runs: seq<seq<Call<O>>>)
    requires WellKeyed(d) && Attempts(tables, d, o, runs)
    ensures UsefulRun(tables[0], d, o, Flatten(runs))
    ensures ApplyAll(tables[0], Flatten(runs)) == tables[|runs|]
    ensures |Flatten(runs)| + Weight(tables[|runs|], d) == Weight(tables[0], d)
    ensures |Flatten(runs)| <= Weight(tables[0], d)
  {
    if runs != [] {
      var n := |runs| - 1;
      AttemptsAreBounded(tables[..|tables| - 1], d, o, runs[..n]);
      assert tables[n + 1] == ApplyAll(tables[n], runs[n]);
      RunsCompose(tables[0], d, o, Flatten(runs[..n]), runs[n]);
    }
    RunSpendsWeight(tables[0], d, o, Flatten(runs));
  }

  // ----- Convergence -----

  lemma WeightlessIffConverged<O>(t: Table<O>, d: Desired)
    requires WellKeyed(d)
    ensures Weight(t, d) == 0 <==> Converged(t, d)
  {
    if Weight(t, d) == 0 {
      assert Wrong(t, d) == {} && Missing(t, d) == {} && Idle(t, d) == {};
      forall p | p in t
        ensures Matches(d, p, t[p]) && t[p].status != Stopped
      {
        assert p !in Wrong(t, d) && p !in Idle(t, d);
      }
      forall k | k in d
        ensures Served(t, d, k)
      {
        assert k !in Missing(t, d);
      }
    }
    if Converged(t, d) {
      assert Wrong(t, d) == {} && Missing(t, d) == {} && Idle(t, d) == {};
    }
  }

  /** On a converged table a reconciler has no call to make. */
  lemma ConvergedNeedsNoCall<O>(t: Table<O>, d: Desired, o: O, calls: seq<Call<O>>)
    requires WellKeyed(d) && Converged(t, d) && UsefulRun(t, d, o, calls)
    ensures calls == []
  {
    WeightlessIffConverged(t, d);
    RunSpendsWeight(t, d, o, calls);
  }

  /** A port can carry one listener, so only desires with one listener per port are ever reached. */
  lemma ConvergedImpliesDistinctPorts<O>(t: Table<O>, d: Desired)
    requires Converged(t, d)
    ensures DistinctPorts(d)
  {
    forall j, k | j in d && k in d && j.0 == k.0
      ensures j == k
    {
      assert Served(t, d, j) && Served(t, d, k);
    }
  }

  function Started<O>(l: Listener<O>): Listener<O> {
    if l.status == Stopped then l.(status := Running) else l
  }

  function Goal<O>(t: Table<O>, d: Desired, o: O, k: Key): Listener<O>
    requires k in d
  {
    if Served(t, d, k) then Started(t[k.0]) else Listener(k.1, d[k].nodePort, Running, o)
  }

  /** The table a completed sync leaves: kept listeners started if idle, the rest created anew. */
  ghost function Synced<O>(t: Table<O>, d: Desired, o: O): Table<O>
    requires DistinctPorts(d)
  {
    map k | k in d :: k.0 := Goal(t, d, o, k)
  }

  lemma SyncedAt<O>(t: Table<O>, d: Desired, o: O, k: Key)
    requires DistinctPorts(d) && k in d
    ensures k.0 in Synced(t, d, o) && Synced(t, d, o)[k.0] == Goal(t, d, o, k)
  {
  }

  lemma SyncedConverges<O>(t: Table<O>, d: Desired, o: O)
    requires WellKeyed(d) && DistinctPorts(d)
    ensures Converged(Synced(t, d, o), d)
  {
    var s := Synced(t, d, o);
    forall k | k in d
      ensures Served(s, d, k) && Matches(d, k.0, s[k.0]) && s[k.0].status != Stopped
    {
      SyncedAt(t, d, o, k);
      ToLowerIdempotent(d[k].protocol);
    }
    forall p | p in s
      ensures Matches(d, p, s[p]) && s[p].status != Stopped
    {
      var k :| k in d && k.0 == p;
    }
  }

  /** A converged table is left as it is. */
  lemma SyncedFixpoint<O>(t: Table<O>, d: Desired, o: O)
    requires WellKeyed(d) && Converged(t, d)
    ensures DistinctPorts(d) && Synced(t, d, o) == t
  {
    ConvergedImpliesDistinctPorts(t, d);
    var s := Synced(t, d, o);
    forall k | k in d
      ensures k.0 in t && s[k.0] == t[k.0]
    {
      SyncedAt(t, d, o, k);
    }
    assert s.Keys == t.Keys by {
      forall p | p in t
        ensures p in s
      {
        SyncedAt(t, d, o, KeyOf(p, t[p].protocol));
      }
    }
  }

  /** No useful call changes where the sync will end. */
  lemma UsefulCallKeepsGoal<O>(t: Table<O>, d: Desired, o: O, c: Call<O>)
    requires WellKeyed(d) && DistinctPorts(d) && Useful(t, d, o, c)
    ensures Synced(Apply(t, c), d, o) == Synced(t, d, o)
  {
    var t' := Apply(t, c);
    forall k | k in d
      ensures Goal(t', d, o, k) == Goal(t, d, o, k)
    {
      if k.0 != c.port {
        assert k.0 in t' <==> k.0 in t;
        assert k.0 in t ==> t'[k.0] == t[k.0];
      } else if c.Create? {
        assert k == (c.port, c.protocol);
      }
    }
  }

  /** Whatever the order of the calls and wherever earlier attempts were cut, a history that
      ends converged ends in the same table. */
  lemma {:induction false} Confluence<O>(t: Table<O>, d: Desired, o: O, calls: seq<Call<O>>)
    requires WellKeyed(d) && UsefulRun(t, d, o, calls) && Converged(ApplyAll(t, calls), d)
    ensures DistinctPorts(d) && ApplyAll(t, calls) == Synced(t, d, o)
  {
    ConvergedImpliesDistinctPorts(ApplyAll(t, calls), d);
    RunKeepsGoal(t, d, o, calls);
    SyncedFixpoint(ApplyAll(t, calls), d, o);
  }

  lemma {:induction false} RunKeepsGoal<O>(t: Table<O>, d: Desired, o: O, calls: seq<Call<O>>)
    requires WellKeyed(d) && DistinctPorts(d) && UsefulRun(t, d, o, calls)
    ensures Synced(ApplyAll(t, calls), d, o) == Synced(t, d, o)
  {
    if calls != [] {
      var n := |calls| - 1;
      RunKeepsGoal(t, d, o, calls[..n]);
      UsefulCallKeepsGoal(ApplyAll(t, calls[..n]), d, o, calls[n]);
    }
  }

  // ----- Not disruptive, and no dearer than it must be -----

  /** A listener that already matches keeps serving at every point of a useful run and is never deleted. */
  lemma {:induction false} MatchedStays<O>(t: Table<O>, d: Desired, o: O, calls: seq<Call<O>>, p: int, n: nat)
    requires UsefulRun(t, d, o, calls) && n <= |calls|
    requires p in t && Matches(d, p, t[p])
    ensures var u := ApplyAll(t, calls[..n]);
      p in u && u[p].protocol == t[p].protocol && u[p].backendPort == t[p].backendPort && u[p].options == t[p].options
    ensures t[p].status != Stopped ==> ApplyAll(t, calls[..n])[p] == t[p]
    ensures Delete(p) !in calls
    decreases |calls|
  {
    if calls != [] {
      var m := |calls| - 1;
      MatchedStays(t, d, o, calls[..m], p, if n <= m then n else m);
      MatchedStays(t, d, o, calls[..m], p, m);
      assert calls[..m][..m] == calls[..m];
      if n <= m {
        assert calls[..n] == calls[..m][..n];
      } else {
        assert calls[..n] == calls;
      }
    }
  }

  lemma UnwantedDelete<O>(t: Table<O>, d: Desired, p: int)
    requires WellKeyed(d) && p in t && p !in Wrong(t, d)
    ensures Weight(Apply(t, Delete(p)), d) > Weight(t, d)
  {
    var t' := Apply(t, Delete(p));
    var k := KeyOf(p, t[p].protocol);
    assert Wrong(t', d) == Wrong(t, d);
    assert k in Missing(t', d) && k !in Missing(t, d);
    assert Missing(t', d) == Missing(t, d) + {k};
    assert Idle(t', d) == Idle(t, d) - {p};
  }

  lemma UnwantedCreate<O>(t: Table<O>, d: Desired, c: Call<O>)
    requires WellKeyed(d) && c.Create? && c.port !in t && !Matches(d, c.port, Apply(t, c)[c.port])
    ensures Weight(Apply(t, c), d) > Weight(t, d)
  {
    var t' := Apply(t, c);
    assert Wrong(t', d) == Wrong(t, d) + {c.port};
    assert forall k :: k in d ==> (Served(t', d, k) <==> Served(t, d, k));
    assert Missing(t', d) == Missing(t, d);
    assert Idle(t', d) == Idle(t, d);
  }

  /** No call at all, useful or not, removes more than one unit of work. */
  lemma AnyCallLowersWeightAtMostOne<O>(t: Table<O>, d: Desired, c: Call<O>)
    requires WellKeyed(d)
    ensures Weight(Apply(t, c), d) + 1 >= Weight(t, d)
  {
    if Accepts(t, c) {
      match c
      case Start(p) =>
        StartStep(t, d, p);
      case Delete(p) =>
        if p in Wrong(t, d) {
          DeleteStep(t, d, p);
        } else {
          UnwantedDelete(t, d, p);
        }
      case Create(_, _, _, _) =>
        if Matches(d, c.port, Apply(t, c)[c.port]) {
          CreateStep(t, d, c);
        } else {
          UnwantedCreate(t, d, c);
        }
    }
  }

  /** No sequence of API calls whatever brings t to a converged table in fewer calls than the weight,
      which is what an uncut sync makes. */
  lemma {:induction false} NoSyncIsCheaper<O>(t: Table<O>, d: Desired, calls: seq<Call<O>>)
    requires WellKeyed(d)
    ensures |calls| + Weight(ApplyAll(t, calls), d) >= Weight(t, d)
    ensures Converged(ApplyAll(t, calls), d) ==> |calls| >= Weight(t, d)
  {
    if calls != [] {
      var n := |calls| - 1;
      NoSyncIsCheaper(t, d, calls[..n]);
      AnyCallLowersWeightAtMostOne(ApplyAll(t, calls[..n]), d, calls[n]);
    }
    WeightlessIffConverged(ApplyAll(t, calls), d);
  }
}
