/** Balancers and services as values: what the listing reports, when a service can be carried, and
    the state a completed reconciliation leaves. */
module Balancers {
  import opened Basics
  import opened Text
  import opened Decimal
  import opened Listeners
  import opened Codec
  import opened Instances

  type Options = seq<Value>

  /** `visibleFrom` is the call number from which listings show the balancer. */
  datatype Balancer = Balancer(name: string, visibleFrom: nat, listeners: Table<Options>, backends: map<string, int>)

  type Balancers = map<nat, Balancer>

  /** A balancer as DescribeLoadBalancerAttribute reports it. */
  datatype Snapshot = Snapshot(id: nat, listeners: seq<(int, string)>, backends: seq<string>)

  /** The reported list names every listener once, with its protocol. */
  ghost predicate Lists(ls: seq<(int, string)>, t: Table<Options>) {
    && (forall i, j :: 0 <= i < j < |ls| ==> ls[i].0 != ls[j].0)
    && (forall i :: 0 <= i < |ls| ==> ls[i].0 in t && ls[i].1 == t[ls[i].0].protocol)
    && (forall p :: p in t ==> exists i :: 0 <= i < |ls| && ls[i].0 == p)
  }

  predicate Readable(protocol: string) {
    protocol == "tcp" || protocol == "udp"
  }

  predicate Creatable(protocol: string) {
    protocol == "TCP" || protocol == "UDP"
  }

  /** The attributes of every listener under an expected key can be read. */
  ghost predicate ReadsSupported(t: Table<Options>, d: Desired) {
    forall p :: p in t && KeyOf(p, t[p].protocol) in d ==> Readable(ToLower(t[p].protocol))
  }

  ghost predicate CreatesSupported(t: Table<Options>, d: Desired) {
    forall k :: k in Missing(t, d) ==> Creatable(d[k].protocol)
  }

  /** What a listener sync needs, besides the transport, to succeed. */
  ghost predicate Syncable(t: Table<Options>, d: Desired) {
    ReadsSupported(t, d) && CreatesSupported(t, d) && DistinctPorts(d)
  }

  /** The comparison has dealt with the listeners on the ports `seen`. */
  ghost predicate Compared(t: Table<Options>, d: Desired, seen: set<int>, stopped: seq<int>, removals: seq<int>,
                           expected: Desired) {
    && Distinct(stopped) && ToSet(stopped) == Idle(t, d) * seen
    && Distinct(removals) && ToSet(removals) == Wrong(t, d) * seen
    && expected.Keys == (set k | k in d && !(Served(t, d, k) && k.0 in seen))
    && forall k :: k in expected ==> expected[k] == d[k]
  }

  lemma CompareMatch(t: Table<Options>, d: Desired, seen: set<int>, stopped: seq<int>, removals: seq<int>,
                     expected: Desired, p: int)
    requires Compared(t, d, seen, stopped, removals, expected)
    requires p in t && p !in seen && Matches(d, p, t[p])
    ensures KeyOf(p, t[p].protocol) in expected
    ensures Compared(t, d, seen + {p}, if t[p].status == Stopped then stopped + [p] else stopped,
                     removals, expected - {KeyOf(p, t[p].protocol)})
  {
    if t[p].status == Stopped {
      Appended(stopped, p);
    }
  }

  lemma CompareOther(t: Table<Options>, d: Desired, seen: set<int>, stopped: seq<int>, removals: seq<int>,
                     expected: Desired, p: int)
    requires Compared(t, d, seen, stopped, removals, expected)
    requires p in t && p !in seen && !Matches(d, p, t[p])
    ensures KeyOf(p, t[p].protocol) in d ==> KeyOf(p, t[p].protocol) in expected
    ensures Compared(t, d, seen + {p}, stopped, removals + [p], expected)
  {
    Appended(removals, p);
    forall k | k in d && Served(t, d, k)
      ensures k.0 != p
    {
    }
  }

  // ----- Backends -----

  const NEW_WEIGHT := 100

  /** The backends left once the unwanted are removed. */
  function Retained(b: map<string, int>, want: set<string>): map<string, int> {
    map s | s in b && s in want :: b[s]
  }

  /** The wanted backends: known ones keep their weight, new ones weigh 100. */
  function SyncedBackends(b: map<string, int>, want: set<string>): map<string, int> {
    map s | s in want :: if s in b then b[s] else NEW_WEIGHT
  }

  /** Where the two calls of a backend sync may leave the backends. */
  predicate BackendStage(b: map<string, int>, want: set<string>, b': map<string, int>) {
    b' == b || b' == Retained(b, want) || b' == SyncedBackends(b, want)
  }

  /** At every stage wanted backends keep their weight and nothing unwanted is added, and a later sync
      ends where an undisturbed one would have. */
  lemma BackendStagesAreSafe(b: map<string, int>, want: set<string>, b': map<string, int>)
    requires BackendStage(b, want, b')
    ensures forall s :: s in b && s in want ==> s in b' && b'[s] == b[s]
    ensures b'.Keys <= b.Keys + want
    ensures SyncedBackends(b', want) == SyncedBackends(b, want)
    ensures SyncedBackends(b', want).Keys == want
    ensures forall s :: s in want && s !in b ==> SyncedBackends(b', want)[s] == 100
    ensures b'.Keys == want ==> SyncedBackends(b', want) == b'
  {
    assert forall s :: s in want ==> SyncedBackends(b', want)[s] == SyncedBackends(b, want)[s];
  }

  // ----- Services -----

  datatype Service = Service(uid: string, affinity: string, ports: seq<ServicePort>, loadBalancerIP: string,
                             annotations: Option<map<string, string>>)

  const ANNOTATION_PREFIX := "aliyun.archon.kubeup.com/"

  const OPTION_FIELDS: Schema := [
    Field("internet-charge-type", StringKind), Field("bandwidth", IntKind), Field("healthy-threshold", IntKind),
    Field("unhealthy-threshold", IntKind), Field("health-check-connect-timeout", IntKind),
    Field("health-check-interval", IntKind)]

  const ZERO_OPTIONS: Options := [Str(""), Int(0), Int(0), Int(0), Int(0), Int(0)]

  /** The options used after the annotations were read, whether or not reading them succeeded. */
  function OptionsOf(svc: Service): Options {
    if svc.annotations.None? then
      ZERO_OPTIONS
    else
      var m := svc.annotations.value;
      Filled(OPTION_FIELDS, m, ANNOTATION_PREFIX, ZERO_OPTIONS, FirstBad(OPTION_FIELDS, m, ANNOTATION_PREFIX, 0))
  }

  /** The checks EnsureLoadBalancer makes before it talks to the cloud. */
  predicate Acceptable(svc: Service) {
    && svc.affinity == "None"
    && (forall i :: 0 <= i < |svc.ports| ==> Creatable(svc.ports[i].protocol))
    && svc.loadBalancerIP == ""
  }

  function Ids(instances: seq<Instance>): set<string> {
    set i | i in instances :: i.id
  }

  ghost predicate NumberOk(m: map<string, string>, key: string) {
    key in m ==> Atoi(m[key]).Some?
  }

  ghost function NumberAt(m: map<string, string>, key: string): goint {
    if key in m && Atoi(m[key]).Some? then Atoi(m[key]).value else 0
  }

  /** The key under which option i is found. */
  ghost function OptionKey(i: nat): string
    requires i < 6
  {
    ANNOTATION_PREFIX + OPTION_FIELDS[i].tag
  }

  lemma OptionBad(m: map<string, string>, i: nat)
    requires 1 <= i < 6
    ensures Bad(OPTION_FIELDS, m, ANNOTATION_PREFIX, i) <==> !NumberOk(m, OptionKey(i))
  {
    assert OPTION_FIELDS[i].kind == IntKind && OPTION_FIELDS[i].tag != "";
  }

  /** Option i is read exactly when it and the number options before it parse. */
  lemma OptionsRead(m: map<string, string>, i: nat)
    requires 1 <= i < 6
    ensures i < FirstBad(OPTION_FIELDS, m, ANNOTATION_PREFIX, 0) <==>
      forall h: nat :: 1 <= h <= i ==> NumberOk(m, OptionKey(h))
  {
    var k := FirstBad(OPTION_FIELDS, m, ANNOTATION_PREFIX, 0);
    assert OPTION_FIELDS[0].kind == StringKind && !Bad(OPTION_FIELDS, m, ANNOTATION_PREFIX, 0);
    if i < k {
      forall h: nat | 1 <= h <= i
        ensures NumberOk(m, OptionKey(h))
      {
        OptionBad(m, h);
      }
    } else {
      OptionBad(m, k);
    }
  }

  lemma OptionTaken(svc: Service, m: map<string, string>, i: nat)
    requires svc.annotations == Some(m) && 1 <= i < 6
    ensures OptionsOf(svc)[i] ==
      Int(if i < FirstBad(OPTION_FIELDS, m, ANNOTATION_PREFIX, 0) then NumberAt(m, OptionKey(i)) else 0)
  {
    OptionBad(m, i);
    assert OPTION_FIELDS[i].kind == IntKind && OPTION_FIELDS[i].tag != "";
  }

  lemma ChargeType(svc: Service, m: map<string, string>)
    requires svc.annotations == Some(m)
    ensures OptionsOf(svc)[0] == Str(if OptionKey(0) in m then m[OptionKey(0)] else "")
  {
    assert !Bad(OPTION_FIELDS, m, ANNOTATION_PREFIX, 0);
  }

  /** The options are what the annotations say under these six keys, in this order, the numbers up to the
      first that does not parse; it and the later ones are zero. */
  lemma OptionsMeaning(svc: Service, m: map<string, string>, i: nat)
    requires svc.annotations == Some(m) && 1 <= i < 6
    ensures var prefix, tags := "aliyun.archon.kubeup.com/", [
        "internet-charge-type", "bandwidth", "healthy-threshold", "unhealthy-threshold",
        "health-check-connect-timeout", "health-check-interval"];
      && OptionsOf(svc)[0] == Str(if prefix + tags[0] in m then m[prefix + tags[0]] else "")
      && OptionsOf(svc)[i] == Int(
           if forall h: nat :: 1 <= h <= i ==> NumberOk(m, prefix + tags[h]) then NumberAt(m, prefix + tags[i]) else 0)
  {
    var prefix, tags := "aliyun.archon.kubeup.com/", [
      "internet-charge-type", "bandwidth", "healthy-threshold", "unhealthy-threshold",
      "health-check-connect-timeout", "health-check-interval"];
    assert forall h: nat :: h < 6 ==> OptionKey(h) == prefix + tags[h];
    ChargeType(svc, m);
    OptionTaken(svc, m, i);
    OptionsRead(m, i);
  }

  /** For an accepted service, one listener per port is all a sync needs, whatever the table. */
  lemma AcceptableSyncable(svc: Service, t: Table<Options>)
    requires Acceptable(svc)
    ensures Syncable(t, Expected(svc.ports)) <==> DistinctPorts(Expected(svc.ports))
  {
    var d := Expected(svc.ports);
    ToLowerSupported();
    forall k | k in d
      ensures Creatable(d[k].protocol) && Readable(k.1)
    {
      ExpectedIsLast(svc.ports, k);
      var i: nat :| LastFor(svc.ports, k, i);
    }
  }

  // ----- Reconciliation of one balancer -----

  function Blank(name: string, visibleFrom: nat): Balancer {
    Balancer(name, visibleFrom, map[], map[])
  }

  ghost function Reconciled(b: Balancer, d: Desired, o: Options, want: set<string>): Balancer
    requires DistinctPorts(d)
  {
    b.(listeners := Synced(b.listeners, d, o), backends := SyncedBackends(b.backends, want))
  }

  /** b' is b after some of the calls of a reconciliation. */
  ghost predicate Towards(b: Balancer, d: Desired, o: Options, want: set<string>, b': Balancer) {
    exists done :: TowardsBy(b, d, o, want, b', done)
  }

  ghost predicate TowardsBy(b: Balancer, d: Desired, o: Options, want: set<string>, b': Balancer,
                            done: seq<Call<Options>>) {
    && b'.name == b.name && b'.visibleFrom == b.visibleFrom
    && UsefulRun(b.listeners, d, o, done) && b'.listeners == ApplyAll(b.listeners, done)
    && BackendStage(b.backends, want, b'.backends)
  }

  // ----- The log of listener calls -----

  type Log = seq<(nat, Call<Options>)>

  ghost function On(id: nat, done: seq<Call<Options>>): Log {
    seq(|done|, i requires 0 <= i < |done| => (id, done[i]))
  }

  lemma OnAppend(id: nat, a: seq<Call<Options>>, b: seq<Call<Options>>)
    ensures On(id, a + b) == On(id, a) + On(id, b)
  {
  }

  /** The work left on balancer id. */
  ghost function Left(s: Balancers, id: nat, d: Desired): nat {
    if id in s then Weight(s[id].listeners, d) else 0
  }

  /** The listener calls that took effect are `done`, all on balancer id; every call made took effect, or
      one more was made, with work left to do, and failed. */
  ghost predicate Recorded(log: Log, tried: nat, id: nat, done: seq<Call<Options>>, ok: bool, left: nat, log': Log,
                           tried': nat) {
    && log' == log + On(id, done)
    && (tried' == tried + |done| || (!ok && left > 0 && tried' == tried + |done| + 1))
  }

  lemma RecordsCompose(l0: Log, n0: nat, id: nat, a: seq<Call<Options>>, l1: Log, n1: nat, b: seq<Call<Options>>,
                       ok: bool, left: nat, l2: Log, n2: nat)
    requires Recorded(l0, n0, id, a, true, 0, l1, n1) && Recorded(l1, n1, id, b, ok, left, l2, n2)
    ensures Recorded(l0, n0, id, a + b, ok, left, l2, n2)
  {
    OnAppend(id, a, b);
    assert l0 + On(id, a) + On(id, b) == l0 + (On(id, a) + On(id, b));
  }

  // ----- The whole account -----

  /** s' is s with at most one balancer of that name moved towards the desire. */
  ghost predicate OneMoved(s: Balancers, name: string, d: Desired, o: Options, want: set<string>, s': Balancers) {
    s' == s || exists id: nat :: id in s && Moved(s, id, name, d, o, want, s')
  }

  ghost predicate Moved(s: Balancers, id: nat, name: string, d: Desired, o: Options, want: set<string>, s': Balancers)
    requires id in s
  {
    s[id].name == name && id in s' && s' == s[id := s'[id]] && Towards(s[id], d, o, want, s'[id])
  }

  /** Balancer id, if there is one, moved by the listener calls `done`, and nothing else changed. */
  ghost predicate MovedAt(s: Balancers, id: nat, name: string, d: Desired, o: Options, want: set<string>, s': Balancers,
                          done: seq<Call<Options>>) {
    if id in s then MovedBy(s, id, name, d, o, want, s', done) else s' == s && done == []
  }

  ghost predicate MovedBy(s: Balancers, id: nat, name: string, d: Desired, o: Options, want: set<string>, s': Balancers,
                          done: seq<Call<Options>>)
    requires id in s
  {
    s[id].name == name && id in s' && s' == s[id := s'[id]] && TowardsBy(s[id], d, o, want, s'[id], done)
  }

  lemma MovedAtIsMoved(s: Balancers, id: nat, name: string, d: Desired, o: Options, want: set<string>, s': Balancers,
                       done: seq<Call<Options>>)
    requires MovedAt(s, id, name, d, o, want, s', done)
    ensures OneMoved(s, name, d, o, want, s')
  {
    if id in s {
      assert Moved(s, id, name, d, o, want, s');
    }
  }

  /** Two reconciliations of the same desire, each ended anywhere, are together one such. */
  lemma TowardsComposes(b: Balancer, d: Desired, o: Options, want: set<string>, b1: Balancer, x: seq<Call<Options>>,
                        b2: Balancer, y: seq<Call<Options>>)
    requires TowardsBy(b, d, o, want, b1, x) && TowardsBy(b1, d, o, want, b2, y)
    ensures TowardsBy(b, d, o, want, b2, x + y)
  {
    RunsCompose(b.listeners, d, o, x, y);
    StagesCompose(b.backends, want, b1.backends, b2.backends);
  }

  lemma StagesCompose(b: map<string, int>, want: set<string>, b1: map<string, int>, b2: map<string, int>)
    requires BackendStage(b, want, b1) && BackendStage(b1, want, b2)
    ensures BackendStage(b, want, b2)
  {
    BackendStagesAreSafe(b, want, b1);
    assert Retained(Retained(b, want), want) == Retained(b, want);
    assert Retained(SyncedBackends(b, want), want) == SyncedBackends(b, want);
  }

  /** An operation on `name` left every balancer of another name alone and made none under another name. */
  ghost predicate Confined(s: Balancers, name: string, s': Balancers) {
    && (forall id :: id in s && s[id].name != name ==> id in s' && s'[id] == s[id])
    && (forall id :: id in s' && s'[id].name != name ==> id in s)
    && (forall id :: id in s && id in s' ==> s'[id].name == s[id].name)
  }

  ghost predicate UniqueNames(s: Balancers) {
    forall i, j :: i in s && j in s && s[i].name == s[j].name ==> i == j
  }

  /** A listing made at call number `now` shows every balancer of that name. */
  ghost predicate Listed(s: Balancers, name: string, now: nat) {
    forall id :: id in s && s[id].name == name ==> s[id].visibleFrom <= now
  }

  /** It shows none of that name. */
  ghost predicate Unlisted(s: Balancers, name: string, now: nat) {
    forall id :: id in s && s[id].name == name ==> now < s[id].visibleFrom
  }

  lemma UnlistedBefore(s: Balancers, name: string, now: nat, later: nat)
    requires now <= later
    ensures Unlisted(s, name, later) ==> Unlisted(s, name, now)
  {
  }

  ghost predicate NoneNamed(s: Balancers, name: string) {
    forall id :: id in s ==> s[id].name != name
  }

  /** If there is a balancer of that name, a listing made at `now` shows one. */
  ghost predicate Findable(s: Balancers, name: string, now: nat) {
    NoneNamed(s, name) || !Unlisted(s, name, now)
  }

  ghost predicate AllListed(s: Balancers, now: nat) {
    forall id :: id in s ==> s[id].visibleFrom <= now
  }

  /** base is s, or s with a blank balancer under a fresh id because the listing at `now` showed none. */
  ghost predicate FoundOrCreated(s: Balancers, now: nat, name: string, newId: nat, base: Balancers) {
    base == s
    || (&& (exists v :: base == s[newId := Blank(name, v)])
        && Unlisted(s, name, now))
  }

  /** A created balancer under a fresh id is hidden from a listing as long as it is not visible yet. */
  lemma CreatedUnlisted(s: Balancers, newId: nat, name: string, v: nat, now: nat)
    requires newId !in s
    ensures Unlisted(s[newId := Blank(name, v)], name, now) <==> now < v && Unlisted(s, name, now)
  {
    var base := s[newId := Blank(name, v)];
    assert base[newId].visibleFrom == v;
    assert forall id :: id in s ==> base[id] == s[id];
  }

  function WantOf(found: Lookup<seq<Instance>>): set<string> {
    if found.Ok? then Ids(found.value) else {}
  }

  /** The backends wanted are the ids of the instances the node lookup gives, and of no others. */
  lemma WantedIds(found: Lookup<seq<Instance>>, id: string)
    ensures id in WantOf(found) <==> found.Ok? && exists j :: 0 <= j < |found.value| && found.value[j].id == id
  {
    if found.Ok? {
      if id in WantOf(found) {
        var i :| i in found.value && i.id == id;
      }
      if j :| 0 <= j < |found.value| && found.value[j].id == id {
        assert found.value[j] in found.value;
      }
    }
  }

  /** How an update of balancer id may end: only it is touched, by the useful calls `done`; success is full
      reconciliation, and comes exactly when no call is disturbed, the listeners can be synced and the nodes
      resolve; a failed node lookup or listener sync leaves the backends alone; undisturbed, the listeners
      are synced if they can be. */
  ghost predicate UpdateOutcome(s: Balancers, id: nat, svc: Service, found: Lookup<seq<Instance>>, clean: bool,
                                ok: bool, s': Balancers, done: seq<Call<Options>>)
    requires id in s
  {
    var d, o, want := Expected(svc.ports), OptionsOf(svc), WantOf(found);
    && MovedBy(s, id, s[id].name, d, o, want, s', done)
    && (found.Err? ==> !ok && s'[id].backends == s[id].backends)
    && (!Syncable(s[id].listeners, d) ==> s'[id].backends == s[id].backends)
    && (ok ==> DistinctPorts(d) && s' == s[id := Reconciled(s[id], d, o, want)])
    && (ok <==> clean && Syncable(s[id].listeners, d) && found.Ok?)
    && (clean && Syncable(s[id].listeners, d) ==> s'[id].listeners == Synced(s[id].listeners, d, o))
  }

  /** What every operation on the balancer of `name`, from call `now` to call `now'`, keeps; `prompt`
      says that created balancers are listed at once. */
  ghost predicate OpStep(s: Balancers, now: nat, name: string, prompt: bool, s': Balancers, now': nat) {
    && Confined(s, name, s') && now <= now'
    && (UniqueNames(s) && Findable(s, name, now) ==> UniqueNames(s'))
    && (prompt && AllListed(s, now) ==> AllListed(s', now'))
  }

  /** s' has the balancers of s, and only those of that name differ, in listeners and backends. */
  ghost predicate SameShape(s: Balancers, name: string, s': Balancers) {
    && s'.Keys == s.Keys
    && forall id :: id in s ==>
         && s'[id].name == s[id].name && s'[id].visibleFrom == s[id].visibleFrom
         && (s[id].name != name ==> s'[id] == s[id])
  }

  lemma MovedKeepsShape(s: Balancers, name: string, d: Desired, o: Options, want: set<string>, s': Balancers)
    requires OneMoved(s, name, d, o, want, s')
    ensures SameShape(s, name, s')
  {
    if s' != s {
      var id: nat :| id in s && Moved(s, id, name, d, o, want, s');
      assert forall i :: i in s && i != id ==> s'[i] == s[i];
    }
  }

  /** Finding or creating keeps names unique if a listing shows the balancer of the name when there is one;
      and only then, if a balancer is created whenever the listing shows none. */
  lemma CreatedIsUnique(s: Balancers, now: nat, name: string, newId: nat, base: Balancers)
    requires newId !in s && FoundOrCreated(s, now, name, newId, base)
    ensures Confined(s, name, base)
    ensures UniqueNames(s) && Findable(s, name, now) ==> UniqueNames(base)
    ensures UniqueNames(s) && (Unlisted(s, name, now) ==> base != s) ==>
      (UniqueNames(base) <==> Findable(s, name, now))
  {
    if base != s {
      var v :| base == s[newId := Blank(name, v)];
      assert base[newId].name == name;
    }
  }

  /** Finding or creating the balancer of a name, then moving it, is such a step. */
  lemma EnsureIsOpStep(s: Balancers, now: nat, name: string, newId: nat, base: Balancers, prompt: bool,
                       d: Desired, o: Options, want: set<string>, s': Balancers, now': nat)
    requires newId !in s && now <= now'
    requires FoundOrCreated(s, now, name, newId, base) && OneMoved(base, name, d, o, want, s')
    requires prompt && base != s ==> base[newId].visibleFrom <= now'
    ensures OpStep(s, now, name, prompt, s', now')
    ensures UniqueNames(s) && (Unlisted(s, name, now) ==> base != s) ==>
      (UniqueNames(s') <==> Findable(s, name, now))
  {
    CreatedIsUnique(s, now, name, newId, base);
    MovedKeepsShape(base, name, d, o, want, s');
    assert UniqueNames(base) <==> UniqueNames(s');
    assert AllListed(base, now') ==> AllListed(s', now');
    assert prompt && AllListed(s, now) ==> AllListed(base, now') by {
      if base != s {
        var v :| base == s[newId := Blank(name, v)];
      }
    }
  }
}
