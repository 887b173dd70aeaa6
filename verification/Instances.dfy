/** Node names and the instances behind them (utils.go). The inventory is the list the instance query
    returned; None stands for a failed query. */
module Instances {
  import opened Basics

  datatype Instance = Instance(id: string, hostName: string, ips: seq<string>)

  datatype NodeNameType = PrivateIP | Hostname | Unknown

  datatype LookupError = QueryFailed | NotFound(name: string) | Multiple(name: string)

  type Lookup<+T> = Result<T, LookupError>

  /** Instance i answers to the node name. */
  predicate Answers(kind: NodeNameType, name: string, i: Instance) {
    match kind
    case PrivateIP => name in i.ips
    case Hostname => i.hostName == name
    case Unknown => false
  }

  function By(kind: NodeNameType, name: string): Instance -> bool {
    (i: Instance) => Answers(kind, name, i)
  }

  /** The node name of an instance. None: the instance has no private address, and indexing its
      address list panics. */
  function NodeName(kind: NodeNameType, i: Instance): Option<string> {
    match kind
    case PrivateIP => if i.ips == [] then None else Some(i.ips[0])
    case Hostname => Some(i.hostName)
    case Unknown => Some(i.hostName)
  }

  /** Row k, and no other row, satisfies f. */
  predicate OnlyAt(inv: seq<Instance>, f: Instance -> bool, k: nat) {
    k < |inv| && f(inv[k]) && forall j :: 0 <= j < |inv| && f(inv[j]) ==> j == k
  }

  function Filtered(inv: seq<Instance>, f: Instance -> bool): seq<Instance> {
    if inv == [] then
      []
    else
      var n := |inv| - 1;
      Filtered(inv[..n], f) + if f(inv[n]) then [inv[n]] else []
  }

  method Filter(inv: seq<Instance>, f: Instance -> bool) returns (ret: seq<Instance>)
    ensures ret == Filtered(inv, f)
  {
    ret := [];
    for k := 0 to |inv|
      invariant ret == Filtered(inv[..k], f)
    {
      assert inv[..k + 1][..k] == inv[..k];
      if f(inv[k]) {
        ret := ret + [inv[k]];
      }
    }
    assert inv[..|inv|] == inv;
  }

  lemma {:induction false} FilteredMembers(inv: seq<Instance>, f: Instance -> bool)
    ensures forall i :: i in Filtered(inv, f) <==> i in inv && f(i)
    ensures (forall j :: 0 <= j < |inv| ==> !f(inv[j])) ==> Filtered(inv, f) == []
  {
    if inv != [] {
      var n := |inv| - 1;
      FilteredMembers(inv[..n], f);
      assert forall i :: i in inv <==> i in inv[..n] || i == inv[n];
    }
  }

  /** Filtering leaves one row exactly when one position satisfies f. */
  lemma {:induction false} FilteredOnly(inv: seq<Instance>, f: Instance -> bool, k: nat)
    requires OnlyAt(inv, f, k)
    ensures Filtered(inv, f) == [inv[k]]
  {
    var n := |inv| - 1;
    if k == n {
      FilteredMembers(inv[..n], f);
    } else {
      FilteredOnly(inv[..n], f, k);
    }
  }

  lemma {:induction false} FilteredSingle(inv: seq<Instance>, f: Instance -> bool) returns (k: nat)
    requires |Filtered(inv, f)| == 1
    ensures OnlyAt(inv, f, k)
  {
    var n := |inv| - 1;
    if f(inv[n]) {
      k := n;
      FilteredMembers(inv[..n], f);
      forall j | 0 <= j < n
        ensures !f(inv[j])
      {
        assert inv[..n][j] !in Filtered(inv[..n], f);
      }
    } else {
      k := FilteredSingle(inv[..n], f);
      forall j | 0 <= j < |inv| && f(inv[j])
        ensures j == k
      {
        assert inv[..n][j] == inv[j];
      }
    }
  }

  // ----- One node -----

  function Resolve(inv: seq<Instance>, kind: NodeNameType, name: string): (r: Lookup<Instance>) {
    var owners := Filtered(inv, By(kind, name));
    if |owners| == 0 then Err(NotFound(name))
    else if |owners| > 1 then Err(Multiple(name))
    else Ok(owners[0])
  }

  /** Row k of the inventory is the one row answering to the name. */
  predicate Owns(inv: seq<Instance>, kind: NodeNameType, name: string, k: nat) {
    OnlyAt(inv, By(kind, name), k)
  }

  ghost predicate Owned(inv: seq<Instance>, kind: NodeNameType, name: string) {
    exists k: nat :: Owns(inv, kind, name, k)
  }

  /** A name resolves exactly when one row answers to it, and then to that row. */
  lemma ResolveOwner(inv: seq<Instance>, kind: NodeNameType, name: string)
    ensures Resolve(inv, kind, name).Ok? <==> Owned(inv, kind, name)
    ensures forall k: nat :: Owns(inv, kind, name, k) ==> Resolve(inv, kind, name) == Ok(inv[k])
    ensures Resolve(inv, kind, name) == Err(NotFound(name)) <==> forall i :: i in inv ==> !Answers(kind, name, i)
  {
    var f := By(kind, name);
    forall k: nat | Owns(inv, kind, name, k)
      ensures Resolve(inv, kind, name) == Ok(inv[k])
    {
      FilteredOnly(inv, f, k);
    }
    if Resolve(inv, kind, name).Ok? {
      var k := FilteredSingle(inv, f);
      assert Owns(inv, kind, name, k);
    }
    FilteredMembers(inv, f);
    if |Filtered(inv, f)| != 0 {
      assert Filtered(inv, f)[0] in Filtered(inv, f);
    }
  }

  /** Row k alone has the address among its addresses. */
  ghost predicate OnlyAddress(inv: seq<Instance>, name: string, k: nat) {
    k < |inv| && name in inv[k].ips && forall j :: 0 <= j < |inv| && name in inv[j].ips ==> j == k
  }

  ghost predicate OnlyHostName(inv: seq<Instance>, name: string, k: nat) {
    k < |inv| && inv[k].hostName == name && forall j :: 0 <= j < |inv| && inv[j].hostName == name ==> j == k
  }

  /** By address: any address of a row leads to it if no other row has the address; none and several are
      told apart. */
  lemma AddressLookup(inv: seq<Instance>, name: string)
    ensures forall k: nat :: OnlyAddress(inv, name, k) ==> Resolve(inv, PrivateIP, name) == Ok(inv[k])
    ensures Resolve(inv, PrivateIP, name) == Err(NotFound(name)) <==> forall k :: 0 <= k < |inv| ==> name !in inv[k].ips
    ensures Resolve(inv, PrivateIP, name) == Err(Multiple(name)) <==>
      exists j, k :: 0 <= j < k < |inv| && name in inv[j].ips && name in inv[k].ips
  {
    LookupSplits(inv, PrivateIP, name);
    assert forall k :: 0 <= k < |inv| ==> (Answers(PrivateIP, name, inv[k]) <==> name in inv[k].ips);
  }

  /** By host name: the same. With an unknown kind of node name nothing is found. */
  lemma HostNameLookup(inv: seq<Instance>, name: string)
    ensures forall k: nat :: OnlyHostName(inv, name, k) ==> Resolve(inv, Hostname, name) == Ok(inv[k])
    ensures Resolve(inv, Hostname, name) == Err(NotFound(name)) <==>
      forall k :: 0 <= k < |inv| ==> inv[k].hostName != name
    ensures Resolve(inv, Hostname, name) == Err(Multiple(name)) <==>
      exists j, k :: 0 <= j < k < |inv| && inv[j].hostName == name && inv[k].hostName == name
    ensures Resolve(inv, Unknown, name) == Err(NotFound(name))
  {
    LookupSplits(inv, Hostname, name);
    LookupSplits(inv, Unknown, name);
    assert forall k :: 0 <= k < |inv| ==> (Answers(Hostname, name, inv[k]) <==> inv[k].hostName == name);
  }

  /** One row answers, none does, or two do. */
  lemma LookupSplits(inv: seq<Instance>, kind: NodeNameType, name: string)
    ensures forall k: nat :: Owns(inv, kind, name, k) ==> Resolve(inv, kind, name) == Ok(inv[k])
    ensures Resolve(inv, kind, name) == Err(NotFound(name)) <==>
      forall k :: 0 <= k < |inv| ==> !Answers(kind, name, inv[k])
    ensures Resolve(inv, kind, name) == Err(Multiple(name)) <==>
      exists j, k :: 0 <= j < k < |inv| && Answers(kind, name, inv[j]) && Answers(kind, name, inv[k])
  {
    ResolveOwner(inv, kind, name);
    if k: nat :| k < |inv| && Answers(kind, name, inv[k]) {
      assert inv[k] in inv;
      if j: nat :| j < |inv| && j != k && Answers(kind, name, inv[j]) {
        assert Resolve(inv, kind, name) != Err(NotFound(name));
      } else {
        assert Owns(inv, kind, name, k);
      }
    }
  }

  method GetInstanceByNodeName(inventory: Option<seq<Instance>>, kind: NodeNameType, name: string)
    returns (r: Lookup<Instance>)
    ensures r == if inventory.None? then Err(QueryFailed) else Resolve(inventory.value, kind, name)
  {
    if inventory.None? {
      return Err(QueryFailed);
    }
    var instances := Filter(inventory.value, By(kind, name));
    if |instances| == 0 {
      return Err(NotFound(name));
    }
    if |instances| > 1 {
      return Err(Multiple(name));
    }
    return Ok(instances[0]);
  }

  // ----- Many nodes -----

  /** The intended meaning: every name resolved on its own. */
  function EachResolved(inv: seq<Instance>, kind: NodeNameType, names: seq<string>): Lookup<seq<Instance>> {
    if names == [] then
      Ok([])
    else
      var n := |names| - 1;
      var rest := EachResolved(inv, kind, names[..n]);
      if rest.Err? then rest
      else
        var last := Resolve(inv, kind, names[n]);
        if last.Err? then Err(last.error) else Ok(rest.value + [last.value])
  }

  /** One row owns the first name and answers to all the others. */
  ghost predicate OneOwner(inv: seq<Instance>, kind: NodeNameType, names: seq<string>, k: nat)
    requires names != []
  {
    Owns(inv, kind, names[0], k) && forall j :: 0 <= j < |names| ==> Answers(kind, names[j], inv[k])
  }

  ghost predicate EachOwned(inv: seq<Instance>, kind: NodeNameType, names: seq<string>) {
    forall j :: 0 <= j < |names| ==> Owned(inv, kind, names[j])
  }

  /** As written: each pass filters what the pass before it left. Succeeds exactly when one row owns
      the first name and answers to every other, and returns that row once per name. */
  method GetInstancesByNodeNames(inventory: Option<seq<Instance>>, kind: NodeNameType, names: seq<string>)
    returns (r: Lookup<seq<Instance>>)
    ensures r == Looked(inventory, kind, names)
  {
    if inventory.None? {
      return Err(QueryFailed);
    }
    var instances := inventory.value;
    var results := [];
    for j := 0 to |names|
      invariant j == 0 ==> instances == inventory.value && results == []
      invariant j > 0 ==> |instances| == 1 && Resolve(inventory.value, kind, names[0]) == Ok(instances[0])
      invariant j > 0 ==> results == Repeat(instances[0], j)
      invariant j > 0 ==> FirstStranger(kind, names, instances[0], 1) == FirstStranger(kind, names, instances[0], j)
    {
      ghost var before := instances;
      instances := Filter(instances, By(kind, names[j]));
      if |instances| == 0 {
        return Err(NotFound(names[j]));
      }
      if |instances| > 1 {
        return Err(Multiple(names[j]));
      }
      results := results + [instances[0]];
    }
    return Ok(results);
  }

  function Repeat(i: Instance, n: nat): seq<Instance> {
    seq(n, _ => i)
  }

  /** The first name at or after j that i does not answer to. */
  function FirstStranger(kind: NodeNameType, names: seq<string>, i: Instance, j: nat): (k: nat)
    requires j <= |names|
    ensures j <= k <= |names|
    ensures k < |names| ==> !Answers(kind, names[k], i)
    ensures forall m :: j <= m < k ==> Answers(kind, names[m], i)
    decreases |names| - j
  {
    if j == |names| || !Answers(kind, names[j], i) then j else FirstStranger(kind, names, i, j + 1)
  }

  /** The value the narrowing loop computes. */
  function Narrowed(inv: seq<Instance>, kind: NodeNameType, names: seq<string>): Lookup<seq<Instance>> {
    if names == [] then
      Ok([])
    else
      var first := Resolve(inv, kind, names[0]);
      if first.Err? then
        Err(first.error)
      else
        var k := FirstStranger(kind, names, first.value, 1);
        if k < |names| then Err(NotFound(names[k])) else Ok(Repeat(first.value, |names|))
  }

  function Looked(inventory: Option<seq<Instance>>, kind: NodeNameType, names: seq<string>): Lookup<seq<Instance>> {
    if inventory.None? then Err(QueryFailed) else Narrowed(inventory.value, kind, names)
  }

  /** The exact success condition and value of the narrowing loop. */
  lemma NarrowedExactly(inv: seq<Instance>, kind: NodeNameType, names: seq<string>)
    ensures Narrowed(inv, kind, names).Ok? <==> names == [] || exists k: nat :: OneOwner(inv, kind, names, k)
    ensures names != [] ==> forall k: nat :: OneOwner(inv, kind, names, k) ==>
      Narrowed(inv, kind, names) == Ok(Repeat(inv[k], |names|))
  {
    if names != [] {
      ResolveOwner(inv, kind, names[0]);
      var r := Narrowed(inv, kind, names);
      if r.Ok? {
        var k: nat :| Owns(inv, kind, names[0], k);
        assert OneOwner(inv, kind, names, k);
      }
    }
  }

  lemma EachOwnedLast(inv: seq<Instance>, kind: NodeNameType, names: seq<string>)
    requires names != []
    ensures var n := |names| - 1;
      EachOwned(inv, kind, names) <==> EachOwned(inv, kind, names[..n]) && Owned(inv, kind, names[n])
  {
    var n := |names| - 1;
    assert forall j :: 0 <= j < n ==> names[..n][j] == names[j];
  }

  lemma {:induction false} EachResolvedExactly(inv: seq<Instance>, kind: NodeNameType, names: seq<string>)
    ensures EachResolved(inv, kind, names).Ok? <==> EachOwned(inv, kind, names)
    ensures EachResolved(inv, kind, names).Ok? ==>
      var rows := EachResolved(inv, kind, names).value;
      |rows| == |names| && forall j :: 0 <= j < |names| ==> Resolve(inv, kind, names[j]) == Ok(rows[j])
  {
    if names != [] {
      var n := |names| - 1;
      EachResolvedExactly(inv, kind, names[..n]);
      EachOwnedLast(inv, kind, names);
      assert Resolve(inv, kind, names[n]).Ok? <==> Owned(inv, kind, names[n]) by {
        ResolveOwner(inv, kind, names[n]);
      }
    }
  }

  /** Both lookups fail, or both succeed with the same instances. */
  predicate Agree(a: Lookup<seq<Instance>>, b: Lookup<seq<Instance>>) {
    if a.Ok? then a == b else b.Err?
  }

  /** The loop as written does what was meant exactly when the names all belong to one row, or not
      all of them can be resolved and no row owning the first answers to the rest. */
  lemma NarrowedMeetsIntent(inv: seq<Instance>, kind: NodeNameType, names: seq<string>)
    ensures Agree(Narrowed(inv, kind, names), EachResolved(inv, kind, names))
      <==> names == [] || (EachOwned(inv, kind, names) <==> exists k: nat :: OneOwner(inv, kind, names, k))
  {
    NarrowedExactly(inv, kind, names);
    EachResolvedExactly(inv, kind, names);
    if names != [] && EachOwned(inv, kind, names) && exists k: nat :: OneOwner(inv, kind, names, k) {
      var k: nat :| OneOwner(inv, kind, names, k);
      var rows := EachResolved(inv, kind, names).value;
      forall j | 0 <= j < |names|
        ensures rows[j] == inv[k]
      {
        ResolveOwner(inv, kind, names[j]);
        var m: nat :| Owns(inv, kind, names[j], m);
        assert m == k;
      }
      assert rows == Repeat(inv[k], |names|);
    }
  }

  /** One distinct name: the loop is right. */
  lemma RepeatedNameIsFine(inv: seq<Instance>, kind: NodeNameType, names: seq<string>)
    requires forall j :: 0 <= j < |names| ==> names[j] == names[0]
    ensures Agree(Narrowed(inv, kind, names), EachResolved(inv, kind, names))
  {
    NarrowedMeetsIntent(inv, kind, names);
    if names != [] && Owned(inv, kind, names[0]) {
      var k: nat :| Owns(inv, kind, names[0], k);
      assert OneOwner(inv, kind, names, k);
    }
  }

  /** Two nodes on two instances: the lookup meant succeeds and the loop reports a node missing. */
  lemma TwoOwnersFail(inv: seq<Instance>, kind: NodeNameType, names: seq<string>, j: nat, k: nat, m: nat)
    requires EachOwned(inv, kind, names) && j < |names|
    requires Owns(inv, kind, names[0], k) && Owns(inv, kind, names[j], m) && k != m
    ensures EachResolved(inv, kind, names).Ok?
    ensures exists i :: 0 < i <= j && Narrowed(inv, kind, names) == Err(NotFound(names[i]))
  {
    EachResolvedExactly(inv, kind, names);
    ResolveOwner(inv, kind, names[0]);
    assert !Answers(kind, names[j], inv[k]);
    var i := FirstStranger(kind, names, inv[k], 1);
    assert i <= j;
  }
}
