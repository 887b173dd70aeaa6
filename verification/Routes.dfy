/** Routes between node networks: listing, creating and deleting entries of the route table (routes.go). */
module Routes {
  import opened Basics
  import opened Instances

  /** A table entry: destination, kind of next hop, and the instance the next hop is on. */
  datatype Entry = Entry(cidr: string, hopType: string, instanceId: string)

  datatype Route = Route(target: string, cidr: string)

  /** `NoAddress`: the node name of an instance without private address was asked for, which panics. */
  datatype RouteError = QueryFailed | NoAddress

  const INSTANCE_HOP := "Instance"

  function ById(id: string): Instance -> bool {
    (i: Instance) => i.id == id
  }

  /** What listing makes of one entry: nothing, unless its hop is an instance known exactly once; then its
      route, or None for a panic. */
  function Line(inv: seq<Instance>, kind: NodeNameType, e: Entry): Option<seq<Route>> {
    var rows := Filtered(inv, ById(e.instanceId));
    if e.hopType != INSTANCE_HOP || |rows| != 1 then
      Some([])
    else
      var name := NodeName(kind, rows[0]);
      if name.None? then None else Some([Route(name.value, e.cidr)])
  }

  function Listing(inv: seq<Instance>, kind: NodeNameType, t: seq<Entry>): Option<seq<Route>> {
    if t == [] then
      Some([])
    else
      var n := |t| - 1;
      var rest, last := Listing(inv, kind, t[..n]), Line(inv, kind, t[n]);
      if rest.None? || last.None? then None else Some(rest.value + last.value)
  }

  method ListTable(inv: seq<Instance>, kind: NodeNameType, t: seq<Entry>) returns (routes: Option<seq<Route>>)
    ensures routes == Listing(inv, kind, t)
  {
    var rs: seq<Route> := [];
    for i := 0 to |t|
      invariant Listing(inv, kind, t[..i]) == Some(rs)
    {
      assert t[..i + 1][..i] == t[..i];
      assert rs + [] == rs;
      var e := t[i];
      if e.hopType != INSTANCE_HOP {
        continue;
      }
      var f := Filter(inv, ById(e.instanceId));
      if |f| == 0 || |f| > 1 {
        continue;
      }
      var name := NodeName(kind, f[0]);
      if name.None? {
        ListingFails(inv, kind, t, i);
        return None;
      }
      rs := rs + [Route(name.value, e.cidr)];
    }
    assert t[..|t|] == t;
    return Some(rs);
  }

  lemma {:induction false} ListingFails(inv: seq<Instance>, kind: NodeNameType, t: seq<Entry>, i: nat)
    requires i < |t| && Line(inv, kind, t[i]).None?
    ensures Listing(inv, kind, t).None?
  {
    if i < |t| - 1 {
      ListingFails(inv, kind, t[..|t| - 1], i);
    }
  }

  lemma {:induction false} ListingConcat(inv: seq<Instance>, kind: NodeNameType, a: seq<Entry>, b: seq<Entry>)
    ensures var x, y := Listing(inv, kind, a), Listing(inv, kind, b);
      Listing(inv, kind, a + b) == if x.None? || y.None? then None else Some(x.value + y.value)
  {
    if b == [] {
      assert a + b == a;
      var x := Listing(inv, kind, a);
      assert x.Some? ==> x.value + [] == x.value;
    } else {
      var n := |b| - 1;
      ListingConcat(inv, kind, a, b[..n]);
      assert (a + b)[..|a + b| - 1] == a + b[..n];
      var x, y, z := Listing(inv, kind, a), Listing(inv, kind, b[..n]), Line(inv, kind, b[n]);
      if x.Some? && y.Some? && z.Some? {
        assert (x.value + y.value) + z.value == x.value + (y.value + z.value);
      }
    }
  }

  /** All tables, in order; a panic in one is a panic. */
  method ListRoutes(inventory: Option<seq<Instance>>, kind: NodeNameType, tables: Option<seq<seq<Entry>>>)
    returns (r: Result<seq<Route>, RouteError>)
    ensures inventory.None? || tables.None? ==> r == Err(RouteError.QueryFailed)
    ensures inventory.Some? && tables.Some? ==>
      var rs := Listing(inventory.value, kind, Flatten(tables.value));
      r == if rs.None? then Err(NoAddress) else Ok(rs.value)
  {
    if inventory.None? || tables.None? {
      return Err(RouteError.QueryFailed);
    }
    var inv, ts := inventory.value, tables.value;
    var routes: seq<Route> := [];
    for i := 0 to |ts|
      invariant Listing(inv, kind, Flatten(ts[..i])) == Some(routes)
    {
      assert ts[..i + 1][..i] == ts[..i];
      ListingConcat(inv, kind, Flatten(ts[..i]), ts[i]);
      var rs := ListTable(inv, kind, ts[i]);
      if rs.None? {
        PanicSpreads(inv, kind, ts, i + 1);
        return Err(NoAddress);
      }
      routes := routes + rs.value;
    }
    assert ts[..|ts|] == ts;
    return Ok(routes);
  }

  lemma {:induction false} PanicSpreads(inv: seq<Instance>, kind: NodeNameType, ts: seq<seq<Entry>>, i: nat)
    requires i <= |ts| && Listing(inv, kind, Flatten(ts[..i])).None?
    ensures Listing(inv, kind, Flatten(ts)).None?
  {
    if i == |ts| {
      assert ts[..i] == ts;
    } else {
      var n := |ts| - 1;
      assert ts[..n][..i] == ts[..i];
      PanicSpreads(inv, kind, ts[..n], i);
      ListingConcat(inv, kind, Flatten(ts[..n]), ts[n]);
    }
  }

  // ----- Node names there and back -----

  /** The node name of a row leads back to it, exactly when no other row answers to the name. */
  lemma NameLeadsBack(inv: seq<Instance>, kind: NodeNameType, k: nat)
    requires k < |inv| && kind != Unknown && NodeName(kind, inv[k]).Some?
    ensures var name := NodeName(kind, inv[k]).value;
      && (Resolve(inv, kind, name).Ok? <==> Owns(inv, kind, name, k))
      && (Resolve(inv, kind, name).Ok? ==> Resolve(inv, kind, name) == Ok(inv[k]))
  {
    var name := NodeName(kind, inv[k]).value;
    ResolveOwner(inv, kind, name);
    assert Answers(kind, name, inv[k]);
    if Resolve(inv, kind, name).Ok? {
      var j: nat :| Owns(inv, kind, name, j);
      assert j == k;
    }
  }

  /** A name that resolves is the node name of its instance, unless it is one of the instance's addresses
      other than the first; then the node name is the first address. */
  lemma ResolvedName(inv: seq<Instance>, kind: NodeNameType, name: string)
    requires Resolve(inv, kind, name).Ok?
    ensures var i := Resolve(inv, kind, name).value;
      && i in inv && Answers(kind, name, i)
      && match kind
         case PrivateIP => i.ips != [] && NodeName(kind, i) == Some(i.ips[0]) && name in i.ips
         case Hostname => NodeName(kind, i) == Some(name)
         case Unknown => false
  {
    ResolveOwner(inv, kind, name);
    var k: nat :| Owns(inv, kind, name, k);
    assert inv[k] in inv;
  }

  // ----- The table and the operations on it -----

  /** The assumed API contract: a destination has at most one entry. */
  predicate DistinctCidrs(t: seq<Entry>) {
    forall i, j :: 0 <= i < j < |t| ==> t[i].cidr != t[j].cidr
  }

  predicate HasCidr(t: seq<Entry>, cidr: string) {
    exists i :: 0 <= i < |t| && t[i].cidr == cidr
  }

  function RemoveAt(t: seq<Entry>, j: nat): seq<Entry>
    requires j < |t|
  {
    t[..j] + t[j + 1..]
  }

  /** Where the entry for this destination and instance is, or the number of entries. */
  function EntryAt(t: seq<Entry>, cidr: string, id: string): (j: nat)
    ensures j <= |t|
    ensures j < |t| ==> t[j].cidr == cidr && t[j].instanceId == id
    ensures j == |t| ==> forall i :: 0 <= i < |t| ==> !(t[i].cidr == cidr && t[i].instanceId == id)
  {
    if t == [] || (t[0].cidr == cidr && t[0].instanceId == id) then 0 else 1 + EntryAt(t[1..], cidr, id)
  }

  predicate IsListed(inv: seq<Instance>, kind: NodeNameType, t: seq<Entry>, route: Route) {
    Listing(inv, kind, t).Some? && route in Listing(inv, kind, t).value
  }

  class RouteTable {
    const fate: nat -> Fate
    var calls: nat
    var entries: seq<Entry>

    ghost predicate Valid()
      reads this
    {
      DistinctCidrs(entries)
    }

    constructor (fate: nat -> Fate)
      ensures Valid() && this.fate == fate && calls == 0 && entries == []
    {
      this.fate := fate;
      calls, entries := 0, [];
    }

    /** Adds an instance-hop entry for the node's instance, unless the destination is taken. */
    method CreateRoute(inventory: Option<seq<Instance>>, kind: NodeNameType, route: Route) returns (ok: bool)
      requires Valid()
      modifies `calls, `entries
      ensures Valid()
      ensures
        var i := if inventory.None? then Err(LookupError.QueryFailed) else Resolve(inventory.value, kind, route.target);
        if i.Err? then
          !ok && entries == old(entries) && calls == old(calls)
        else
          var applied := fate(old(calls)) != Rejected && !HasCidr(old(entries), route.cidr);
          && ok == (applied && fate(old(calls)) == Delivered) && calls == old(calls) + 1
          && entries == if applied then old(entries) + [Entry(route.cidr, INSTANCE_HOP, i.value.id)] else old(entries)
    {
      var i := GetInstanceByNodeName(inventory, kind, route.target);
      if i.Err? {
        return false;
      }
      var f := fate(calls);
      calls := calls + 1;
      if f == Rejected || HasCidr(entries, route.cidr) {
        return false;
      }
      entries := entries + [Entry(route.cidr, INSTANCE_HOP, i.value.id)];
      return f == Delivered;
    }

    /** Removes the entry for the destination through the node's instance; the API knows it by destination
        and hop id, not by hop type. */
    method DeleteRoute(inventory: Option<seq<Instance>>, kind: NodeNameType, route: Route) returns (ok: bool)
      requires Valid()
      modifies `calls, `entries
      ensures Valid()
      ensures
        var i := if inventory.None? then Err(LookupError.QueryFailed) else Resolve(inventory.value, kind, route.target);
        if i.Err? then
          !ok && entries == old(entries) && calls == old(calls)
        else
          var j := EntryAt(old(entries), route.cidr, i.value.id);
          var applied := fate(old(calls)) != Rejected && j < |old(entries)|;
          && ok == (applied && fate(old(calls)) == Delivered) && calls == old(calls) + 1
          && entries == if applied then RemoveAt(old(entries), j) else old(entries)
    {
      var i := GetInstanceByNodeName(inventory, kind, route.target);
      if i.Err? {
        return false;
      }
      var f := fate(calls);
      calls := calls + 1;
      var j := EntryAt(entries, route.cidr, i.value.id);
      if f == Rejected || j == |entries| {
        return false;
      }
      RemoveKeepsDistinct(entries, j);
      entries := RemoveAt(entries, j);
      return f == Delivered;
    }
  }

  /** A created entry is listed last, under the node name of its instance, and the rest of the listing is
      as before. */
  lemma CreatedIsListed(inv: seq<Instance>, kind: NodeNameType, t: seq<Entry>, route: Route, k: nat)
    requires Resolve(inv, kind, route.target).Ok? && Listing(inv, kind, t).Some?
    requires var i := Resolve(inv, kind, route.target).value; OnlyAt(inv, ById(i.id), k)
    ensures var i := Resolve(inv, kind, route.target).value; var name := NodeName(kind, i);
      && name.Some?
      && Listing(inv, kind, t + [Entry(route.cidr, INSTANCE_HOP, i.id)]) ==
         Some(Listing(inv, kind, t).value + [Route(name.value, route.cidr)])
  {
    var i := Resolve(inv, kind, route.target).value;
    ResolvedName(inv, kind, route.target);
    LineOfInstance(inv, kind, i, route.cidr, k);
    ListingAppend(inv, kind, t, Entry(route.cidr, INSTANCE_HOP, i.id));
  }

  lemma LineOfInstance(inv: seq<Instance>, kind: NodeNameType, i: Instance, cidr: string, k: nat)
    requires i in inv && OnlyAt(inv, ById(i.id), k)
    ensures Line(inv, kind, Entry(cidr, INSTANCE_HOP, i.id)) ==
      var name := NodeName(kind, i); if name.None? then None else Some([Route(name.value, cidr)])
  {
    var j :| 0 <= j < |inv| && inv[j] == i;
    assert ById(i.id)(inv[j]);
    FilteredOnly(inv, ById(i.id), k);
  }

  lemma ListingAppend(inv: seq<Instance>, kind: NodeNameType, t: seq<Entry>, e: Entry)
    requires Listing(inv, kind, t).Some? && Line(inv, kind, e).Some?
    ensures Listing(inv, kind, t + [e]) == Some(Listing(inv, kind, t).value + Line(inv, kind, e).value)
  {
    assert (t + [e])[..|t|] == t;
  }

  /** Every listed route comes from an instance-hop entry, whose instance is the one its target resolves
      to, if it resolves. */
  lemma {:induction false} ListedHasEntry(inv: seq<Instance>, kind: NodeNameType, t: seq<Entry>, m: nat)
    returns (j: nat)
    requires Listing(inv, kind, t).Some? && m < |Listing(inv, kind, t).value|
    ensures var r := Listing(inv, kind, t).value[m];
      && j < |t| && t[j].cidr == r.cidr && t[j].hopType == INSTANCE_HOP
      && Line(inv, kind, t[j]) == Some([r])
      && Listing(inv, kind, t[..j]).Some? && |Listing(inv, kind, t[..j]).value| == m
      && (Resolve(inv, kind, r.target).Ok? ==> t[j].instanceId == Resolve(inv, kind, r.target).value.id)
  {
    var n := |t| - 1;
    var rest := Listing(inv, kind, t[..n]).value;
    if m < |rest| {
      j := ListedHasEntry(inv, kind, t[..n], m);
      assert t[..n][..j] == t[..j];
    } else {
      j := n;
      LineResolves(inv, kind, t[n]);
    }
  }

  lemma LineResolves(inv: seq<Instance>, kind: NodeNameType, e: Entry)
    requires Line(inv, kind, e).Some? && Line(inv, kind, e).value != []
    ensures var r := Line(inv, kind, e).value[0];
      Resolve(inv, kind, r.target).Ok? ==> e.instanceId == Resolve(inv, kind, r.target).value.id
  {
    var r := Line(inv, kind, e).value[0];
    var k := FilteredSingle(inv, ById(e.instanceId));
    FilteredOnly(inv, ById(e.instanceId), k);
    if Resolve(inv, kind, r.target).Ok? {
      ResolvedName(inv, kind, r.target);
      NameLeadsBack(inv, kind, k);
    }
  }

  lemma OneEntryPerCidr(t: seq<Entry>, cidr: string, id: string, j: nat)
    requires DistinctCidrs(t) && j < |t| && t[j].cidr == cidr && t[j].instanceId == id
    ensures EntryAt(t, cidr, id) == j
  {
  }

  lemma ListingWithout(inv: seq<Instance>, kind: NodeNameType, t: seq<Entry>, j: nat)
    requires j < |t| && Listing(inv, kind, t).Some?
    ensures Listing(inv, kind, t[..j]).Some? && Line(inv, kind, t[j]).Some? && Listing(inv, kind, t[j + 1..]).Some?
    ensures
      var a, b := Listing(inv, kind, t[..j]).value, Line(inv, kind, t[j]).value;
      var c := Listing(inv, kind, t[j + 1..]).value;
      Listing(inv, kind, t).value == a + b + c && Listing(inv, kind, RemoveAt(t, j)) == Some(a + c)
  {
    var mid := [t[j]];
    assert t == t[..j] + mid + t[j + 1..];
    ListingConcat(inv, kind, t[..j] + mid, t[j + 1..]);
    ListingConcat(inv, kind, t[..j], mid);
    ListingConcat(inv, kind, t[..j], t[j + 1..]);
    assert mid[..0] == [];
    assert Listing(inv, kind, mid) ==
      if Line(inv, kind, t[j]).None? then None else Some([] + Line(inv, kind, t[j]).value);
  }

  /** Deleting a listed route whose target resolves finds its own instance-hop entry, no other, and takes
      exactly that route off the listing. */
  lemma DeletingListedRemovesIt(inv: seq<Instance>, kind: NodeNameType, t: seq<Entry>, m: nat)
    requires DistinctCidrs(t) && Listing(inv, kind, t).Some? && m < |Listing(inv, kind, t).value|
    requires Resolve(inv, kind, Listing(inv, kind, t).value[m].target).Ok?
    ensures var rs := Listing(inv, kind, t).value; var i := Resolve(inv, kind, rs[m].target).value;
      var j := EntryAt(t, rs[m].cidr, i.id);
      && j < |t| && t[j].hopType == INSTANCE_HOP
      && Listing(inv, kind, RemoveAt(t, j)) == Some(rs[..m] + rs[m + 1..])
  {
    var rs := Listing(inv, kind, t).value;
    var j := ListedHasEntry(inv, kind, t, m);
    OneEntryPerCidr(t, rs[m].cidr, t[j].instanceId, j);
    ListingWithout(inv, kind, t, j);
    var a, c := Listing(inv, kind, t[..j]).value, Listing(inv, kind, t[j + 1..]).value;
    assert rs == a + [rs[m]] + c;
    assert rs[..m] == a && rs[m + 1..] == c;
  }

  /** Creating a route and deleting it again leaves the table as it was. */
  lemma CreateThenDelete(t: seq<Entry>, cidr: string, id: string)
    requires DistinctCidrs(t) && !HasCidr(t, cidr)
    ensures var u := t + [Entry(cidr, INSTANCE_HOP, id)];
      EntryAt(u, cidr, id) == |t| && RemoveAt(u, |t|) == t
  {
    var u := t + [Entry(cidr, INSTANCE_HOP, id)];
    assert DistinctCidrs(u) by {
      forall i, j | 0 <= i < j < |u|
        ensures u[i].cidr != u[j].cidr
      {
      }
    }
    OneEntryPerCidr(u, cidr, id, |t|);
  }

  // ----- Whole runs -----

  /** The entries with other hops. */
  function Foreign(t: seq<Entry>): seq<Entry> {
    if t == [] then
      []
    else
      var n := |t| - 1;
      Foreign(t[..n]) + if t[n].hopType != INSTANCE_HOP then [t[n]] else []
  }

  lemma CreateKeepsForeign(t: seq<Entry>, cidr: string, id: string)
    requires DistinctCidrs(t) && !HasCidr(t, cidr)
    ensures var u := t + [Entry(cidr, INSTANCE_HOP, id)]; DistinctCidrs(u) && Foreign(u) == Foreign(t)
  {
    var u := t + [Entry(cidr, INSTANCE_HOP, id)];
    assert u[..|t|] == t;
    assert Foreign(t) + [] == Foreign(t);
  }

  lemma {:induction false} RemoveKeepsForeign(t: seq<Entry>, j: nat)
    requires j < |t| && t[j].hopType == INSTANCE_HOP
    ensures Foreign(RemoveAt(t, j)) == Foreign(t)
  {
    var n := |t| - 1;
    var u := RemoveAt(t, j);
    if j == n {
      assert u == t[..n];
    } else {
      RemoveKeepsForeign(t[..n], j);
      assert u[..|u| - 1] == RemoveAt(t[..n], j);
      assert u[|u| - 1] == t[n];
    }
  }

  lemma RemoveKeepsDistinct(t: seq<Entry>, j: nat)
    requires DistinctCidrs(t) && j < |t|
    ensures DistinctCidrs(RemoveAt(t, j))
  {
    var u := RemoveAt(t, j);
    assert forall i :: 0 <= i < |u| ==> u[i] == t[if i < j then i else i + 1];
  }

  /** A route is listed exactly when some entry has its destination and an instance hop, exactly one row of
      the inventory has the entry's instance id, and the route's target is the node name of that row. */
  lemma ListedExactly(inv: seq<Instance>, kind: NodeNameType, t: seq<Entry>, r: Route)
    requires Listing(inv, kind, t).Some?
    ensures r in Listing(inv, kind, t).value <==> exists j: nat, k: nat :: ListedBy(inv, kind, t, r, j, k)
  {
    if r in Listing(inv, kind, t).value {
      var m: nat :| m < |Listing(inv, kind, t).value| && Listing(inv, kind, t).value[m] == r;
      var j := ListedHasEntry(inv, kind, t, m);
      var k := FilteredSingle(inv, ById(t[j].instanceId));
      FilteredOnly(inv, ById(t[j].instanceId), k);
      assert forall i :: 0 <= i < |inv| && inv[i].id == t[j].instanceId ==> ById(t[j].instanceId)(inv[i]);
      assert ListedBy(inv, kind, t, r, j, k);
    }
    if j: nat, k: nat :| ListedBy(inv, kind, t, r, j, k) {
      LineOfInstance(inv, kind, inv[k], r.cidr, k);
      assert t[j] == Entry(r.cidr, INSTANCE_HOP, inv[k].id);
      EntryIsListed(inv, kind, t, j, r);
    }
  }

  ghost predicate ListedBy(inv: seq<Instance>, kind: NodeNameType, t: seq<Entry>, r: Route, j: nat, k: nat) {
    && j < |t| && t[j].cidr == r.cidr && t[j].hopType == "Instance"
    && k < |inv| && inv[k].id == t[j].instanceId
    && (forall i :: 0 <= i < |inv| && inv[i].id == t[j].instanceId ==> i == k)
    && (if kind == PrivateIP then inv[k].ips != [] && r.target == inv[k].ips[0] else r.target == inv[k].hostName)
  }

  /** Every entry that makes a line is listed, wherever it stands in the table. */
  lemma {:induction false} EntryIsListed(inv: seq<Instance>, kind: NodeNameType, t: seq<Entry>, j: nat, r: Route)
    requires Listing(inv, kind, t).Some? && j < |t| && Line(inv, kind, t[j]) == Some([r])
    ensures r in Listing(inv, kind, t).value
  {
    var n := |t| - 1;
    if j < n {
      EntryIsListed(inv, kind, t[..n], j, r);
    }
  }

  lemma OthersStay(t: seq<Entry>, j: nat, e: Entry)
    requires j < |t| && e in t
    ensures e == t[j] || e in RemoveAt(t, j)
  {
    var i :| 0 <= i < |t| && t[i] == e;
    if i != j {
      assert RemoveAt(t, j)[if i < j then i else i - 1] == e;
    }
  }
}
