/** What holds over whole runs of route creations and deletions. */
module RouteRuns {
  import opened Basics
  import opened Instances
  import opened Routes

  datatype Op =
    | Create(inventory: Option<seq<Instance>>, route: Route)
    | Delete(inventory: Option<seq<Instance>>, route: Route)

  predicate Resolves(op: Op, kind: NodeNameType) {
    op.inventory.Some? && Resolve(op.inventory.value, kind, op.route.target).Ok?
  }

  /** The entry an operation is about: that of the destination, through the instance of the target. */
  function EntryOf(op: Op, kind: NodeNameType): Entry
    requires Resolves(op, kind)
  {
    Entry(op.route.cidr, INSTANCE_HOP, Resolve(op.inventory.value, kind, op.route.target).value.id)
  }

  /** The operation changed the table as it was to. */
  ghost predicate Took(op: Op, kind: NodeNameType, t: seq<Entry>, t': seq<Entry>) {
    && Resolves(op, kind)
    && var e := EntryOf(op, kind);
       if op.Create? then
         !HasCidr(t, e.cidr) && t' == t + [e]
       else
         var j := EntryAt(t, e.cidr, e.instanceId); j < |t| && t' == RemoveAt(t, j)
  }

  ghost predicate Routed(op: Op, kind: NodeNameType, ok: bool, t: seq<Entry>, t': seq<Entry>) {
    (t' == t || Took(op, kind, t, t')) && (ok ==> Took(op, kind, t, t'))
  }

  method Perform(table: RouteTable, kind: NodeNameType, op: Op) returns (ok: bool)
    requires table.Valid()
    modifies table
    ensures table.Valid() && Routed(op, kind, ok, old(table.entries), table.entries)
  {
    match op
    case Create(inventory, route) => ok := table.CreateRoute(inventory, kind, route);
    case Delete(inventory, route) => ok := table.DeleteRoute(inventory, kind, route);
  }

  // ----- What one operation keeps -----

  lemma StaysDistinct(op: Op, kind: NodeNameType, ok: bool, t: seq<Entry>, t': seq<Entry>)
    requires Routed(op, kind, ok, t, t') && DistinctCidrs(t)
    ensures DistinctCidrs(t')
  {
    if t' != t {
      var e := EntryOf(op, kind);
      if op.Create? {
        CreateKeepsForeign(t, e.cidr, e.instanceId);
      } else {
        RemoveKeepsDistinct(t, EntryAt(t, e.cidr, e.instanceId));
      }
    }
  }

  /** The operation is a creation, or the deletion of a route that its inventory lists. */
  ghost predicate Honest(op: Op, kind: NodeNameType, t: seq<Entry>) {
    op.Delete? && op.inventory.Some? ==> IsListed(op.inventory.value, kind, t, op.route)
  }

  lemma ForeignStays(op: Op, kind: NodeNameType, ok: bool, t: seq<Entry>, t': seq<Entry>)
    requires Routed(op, kind, ok, t, t') && DistinctCidrs(t) && Honest(op, kind, t)
    ensures Foreign(t') == Foreign(t)
  {
    if t' != t {
      var inv, e := op.inventory.value, EntryOf(op, kind);
      if op.Create? {
        CreateKeepsForeign(t, e.cidr, e.instanceId);
      } else {
        var listing := Listing(inv, kind, t).value;
        var m: nat :| m < |listing| && listing[m] == op.route;
        DeletingListedRemovesIt(inv, kind, t, m);
        RemoveKeepsForeign(t, EntryAt(t, e.cidr, e.instanceId));
      }
    }
  }

  lemma ForeignAppend(t: seq<Entry>, e: Entry)
    ensures Foreign(t + [e]) == Foreign(t) + if e.hopType != INSTANCE_HOP then [e] else []
  {
    assert (t + [e])[..|t|] == t;
  }

  lemma {:induction false} RemoveDropsForeign(t: seq<Entry>, j: nat)
    requires j < |t| && t[j].hopType != INSTANCE_HOP
    ensures |Foreign(RemoveAt(t, j))| + 1 == |Foreign(t)|
  {
    var front, last := t[..|t| - 1], t[|t| - 1];
    assert t == front + [last];
    ForeignAppend(front, last);
    if j == |front| {
      assert RemoveAt(t, j) == front;
    } else {
      RemoveDropsForeign(front, j);
      assert RemoveAt(t, j) == RemoveAt(front, j) + [last];
      ForeignAppend(RemoveAt(front, j), last);
    }
  }

  /** The API knows an entry by destination and instance, so a deletion that took effect keeps the entries
      with other hops exactly when the entry it finds has an instance hop; a listed route makes sure of it. */
  lemma DeletionKeepsForeignExactly(op: Op, kind: NodeNameType, t: seq<Entry>, t': seq<Entry>)
    requires op.Delete? && Took(op, kind, t, t')
    ensures var j := EntryAt(t, op.route.cidr, EntryOf(op, kind).instanceId);
      Foreign(t') == Foreign(t) <==> t[j].hopType == INSTANCE_HOP
  {
    var j := EntryAt(t, op.route.cidr, EntryOf(op, kind).instanceId);
    if t[j].hopType == INSTANCE_HOP {
      RemoveKeepsForeign(t, j);
    } else {
      RemoveDropsForeign(t, j);
    }
  }

  lemma EntryStays(op: Op, kind: NodeNameType, ok: bool, t: seq<Entry>, t': seq<Entry>, e: Entry)
    requires Routed(op, kind, ok, t, t') && e in t && !(op.Delete? && op.route.cidr == e.cidr)
    ensures e in t'
  {
    if t' != t && op.Delete? {
      OthersStay(t, EntryAt(t, op.route.cidr, EntryOf(op, kind).instanceId), e);
    }
  }

  lemma CidrStaysFree(op: Op, kind: NodeNameType, ok: bool, t: seq<Entry>, t': seq<Entry>, cidr: string)
    requires Routed(op, kind, ok, t, t') && !HasCidr(t, cidr) && !(op.Create? && op.route.cidr == cidr)
    ensures !HasCidr(t', cidr)
  {
  }

  lemma DeletedIsFree(op: Op, kind: NodeNameType, t: seq<Entry>, t': seq<Entry>)
    requires op.Delete? && DistinctCidrs(t) && Took(op, kind, t, t')
    ensures !HasCidr(t', op.route.cidr)
  {
    var j := EntryAt(t, op.route.cidr, EntryOf(op, kind).instanceId);
    forall i | 0 <= i < |t'|
      ensures t'[i].cidr != op.route.cidr
    {
      assert t'[i] == t[if i < j then i else i + 1];
    }
  }

  // ----- Runs -----

  /** The tables between the operations of a run. */
  ghost predicate History(trace: seq<seq<Entry>>, kind: NodeNameType, ops: seq<Op>, oks: seq<bool>) {
    && |trace| == |ops| + 1 && |oks| == |ops| && DistinctCidrs(trace[0])
    && forall i :: 0 <= i < |ops| ==> HistoryStep(trace, kind, ops, oks, i)
  }

  ghost predicate HistoryStep(trace: seq<seq<Entry>>, kind: NodeNameType, ops: seq<Op>, oks: seq<bool>, i: nat)
    requires i < |ops| == |oks| && |trace| == |ops| + 1
  {
    Routed(ops[i], kind, oks[i], trace[i], trace[i + 1])
  }

  lemma {:induction false} AlwaysDistinct(trace: seq<seq<Entry>>, kind: NodeNameType, ops: seq<Op>, oks: seq<bool>,
                                          i: nat)
    requires History(trace, kind, ops, oks) && i < |trace|
    ensures DistinctCidrs(trace[i])
  {
    if i > 0 {
      AlwaysDistinct(trace, kind, ops, oks, i - 1);
      assert HistoryStep(trace, kind, ops, oks, i - 1);
      StaysDistinct(ops[i - 1], kind, oks[i - 1], trace[i - 1], trace[i]);
    }
  }

  /** The operations from i to j delete only listed routes. */
  ghost predicate HonestFrom(trace: seq<seq<Entry>>, kind: NodeNameType, ops: seq<Op>, i: nat, j: nat) {
    forall k :: i <= k < j && k < |ops| && k < |trace| ==> Honest(ops[k], kind, trace[k])
  }

  lemma {:induction false} ForeignStaysOver(trace: seq<seq<Entry>>, kind: NodeNameType, ops: seq<Op>, oks: seq<bool>,
                                            i: nat, j: nat)
    requires History(trace, kind, ops, oks) && i <= j < |trace| && HonestFrom(trace, kind, ops, i, j)
    ensures Foreign(trace[j]) == Foreign(trace[i])
    decreases j
  {
    if i < j {
      ForeignStaysOver(trace, kind, ops, oks, i, j - 1);
      AlwaysDistinct(trace, kind, ops, oks, j - 1);
      assert HistoryStep(trace, kind, ops, oks, j - 1);
      ForeignStays(ops[j - 1], kind, oks[j - 1], trace[j - 1], trace[j]);
    }
  }

  /** None of the operations from i to j deletes a route to the destination. */
  ghost predicate NotDeleted(ops: seq<Op>, cidr: string, i: nat, j: nat) {
    forall k :: i <= k < j && k < |ops| ==> !(ops[k].Delete? && ops[k].route.cidr == cidr)
  }

  /** Operation i created its route, and up to j no route to its destination was deleted. */
  ghost predicate StillCreated(ops: seq<Op>, oks: seq<bool>, i: nat, j: nat) {
    && i < |ops| == |oks| && i < j && oks[i] && ops[i].Create?
    && NotDeleted(ops, ops[i].route.cidr, i + 1, j)
  }

  lemma {:induction false} CreatedStays(trace: seq<seq<Entry>>, kind: NodeNameType, ops: seq<Op>, oks: seq<bool>,
                                        i: nat, j: nat)
    requires History(trace, kind, ops, oks) && j < |trace| && StillCreated(ops, oks, i, j)
    ensures Resolves(ops[i], kind) && EntryOf(ops[i], kind) in trace[j]
    decreases j
  {
    assert HistoryStep(trace, kind, ops, oks, i);
    if i + 1 < j {
      CreatedStays(trace, kind, ops, oks, i, j - 1);
      assert HistoryStep(trace, kind, ops, oks, j - 1);
      EntryStays(ops[j - 1], kind, oks[j - 1], trace[j - 1], trace[j], EntryOf(ops[i], kind));
    }
  }

  /** The entry of the operation is in the table, and listed by every inventory that knows its instance. */
  ghost predicate Present(op: Op, kind: NodeNameType, t: seq<Entry>) {
    && Resolves(op, kind) && EntryOf(op, kind) in t
    && forall inv, r :: Listing(inv, kind, t).Some? && Line(inv, kind, EntryOf(op, kind)) == Some([r]) ==>
         r in Listing(inv, kind, t).value
  }

  lemma EntryIsPresent(op: Op, kind: NodeNameType, t: seq<Entry>)
    requires Resolves(op, kind) && EntryOf(op, kind) in t
    ensures Present(op, kind, t)
  {
    var e := EntryOf(op, kind);
    var j :| 0 <= j < |t| && t[j] == e;
    forall inv, r | Listing(inv, kind, t).Some? && Line(inv, kind, e) == Some([r])
      ensures r in Listing(inv, kind, t).value
    {
      EntryIsListed(inv, kind, t, j, r);
    }
  }

  /** None of the operations from i to j creates a route to the destination. */
  ghost predicate NotCreated(ops: seq<Op>, cidr: string, i: nat, j: nat) {
    forall k :: i <= k < j && k < |ops| ==> !(ops[k].Create? && ops[k].route.cidr == cidr)
  }

  /** Operation i deleted its route, and up to j no route to its destination was created. */
  ghost predicate StillDeleted(ops: seq<Op>, oks: seq<bool>, i: nat, j: nat) {
    && i < |ops| == |oks| && i < j && oks[i] && ops[i].Delete?
    && NotCreated(ops, ops[i].route.cidr, i + 1, j)
  }

  lemma {:induction false} DeletedStaysGone(trace: seq<seq<Entry>>, kind: NodeNameType, ops: seq<Op>, oks: seq<bool>,
                                            i: nat, j: nat)
    requires History(trace, kind, ops, oks) && j < |trace| && StillDeleted(ops, oks, i, j)
    ensures !HasCidr(trace[j], ops[i].route.cidr)
    decreases j
  {
    assert HistoryStep(trace, kind, ops, oks, i);
    if i + 1 < j {
      DeletedStaysGone(trace, kind, ops, oks, i, j - 1);
      assert HistoryStep(trace, kind, ops, oks, j - 1);
      CidrStaysFree(ops[j - 1], kind, oks[j - 1], trace[j - 1], trace[j], ops[i].route.cidr);
    } else {
      AlwaysDistinct(trace, kind, ops, oks, i);
      DeletedIsFree(ops[i], kind, trace[i], trace[j]);
    }
  }

  /** Runs any creations and deletions of routes, under any faults and while the inventory changes; `trace`
      are the tables between them. Destinations stay unique. Over a stretch that deletes only listed routes,
      the entries with other hops stay, in order. A successful creation holds until a route to its
      destination is deleted, and the entry is listed by every inventory that knows its instance. A
      successful deletion holds until a route to its destination is created. */
  method RunRoutes(table: RouteTable, kind: NodeNameType, ops: seq<Op>)
    returns (oks: seq<bool>, ghost trace: seq<seq<Entry>>)
    requires table.Valid()
    modifies table
    ensures |oks| == |ops| && |trace| == |ops| + 1
    ensures trace[0] == old(table.entries) && trace[|ops|] == table.entries
    ensures forall i :: 0 <= i <= |ops| ==> DistinctCidrs(trace[i])
    ensures forall i, j :: 0 <= i <= j <= |ops| && HonestFrom(trace, kind, ops, i, j) ==>
      Foreign(trace[j]) == Foreign(trace[i])
    ensures forall i: nat, j: nat :: j <= |ops| && StillCreated(ops, oks, i, j) ==> Present(ops[i], kind, trace[j])
    ensures forall i: nat, j: nat :: j <= |ops| && StillDeleted(ops, oks, i, j) ==>
      !HasCidr(trace[j], ops[i].route.cidr)
  {
    oks, trace := RunAll(table, kind, ops);
    forall i | 0 <= i <= |ops|
      ensures DistinctCidrs(trace[i])
    {
      AlwaysDistinct(trace, kind, ops, oks, i);
    }
    forall i, j | 0 <= i <= j <= |ops| && HonestFrom(trace, kind, ops, i, j)
      ensures Foreign(trace[j]) == Foreign(trace[i])
    {
      ForeignStaysOver(trace, kind, ops, oks, i, j);
    }
    forall i: nat, j: nat | j <= |ops| && StillCreated(ops, oks, i, j)
      ensures Present(ops[i], kind, trace[j])
    {
      CreatedStays(trace, kind, ops, oks, i, j);
      EntryIsPresent(ops[i], kind, trace[j]);
    }
    forall i: nat, j: nat | j <= |ops| && StillDeleted(ops, oks, i, j)
      ensures !HasCidr(trace[j], ops[i].route.cidr)
    {
      DeletedStaysGone(trace, kind, ops, oks, i, j);
    }
  }

  method RunAll(table: RouteTable, kind: NodeNameType, ops: seq<Op>)
    returns (oks: seq<bool>, ghost trace: seq<seq<Entry>>)
    requires table.Valid()
    modifies table
    ensures History(trace, kind, ops, oks)
    ensures trace[0] == old(table.entries) && trace[|ops|] == table.entries
  {
    oks, trace := [], [table.entries];
    for i := 0 to |ops|
      invariant table.Valid() && |oks| == i && |trace| == i + 1
      invariant trace[0] == old(table.entries) && trace[i] == table.entries
      invariant History(trace, kind, ops[..i], oks)
    {
      var ok := Perform(table, kind, ops[i]);
      HistoryExtends(trace, kind, ops[..i], oks, ops[i], ok, table.entries);
      assert ops[..i + 1] == ops[..i] + [ops[i]];
      oks, trace := oks + [ok], trace + [table.entries];
    }
    assert ops[..|ops|] == ops;
  }

  lemma HistoryExtends(trace: seq<seq<Entry>>, kind: NodeNameType, ops: seq<Op>, oks: seq<bool>, op: Op, ok: bool,
                       t: seq<Entry>)
    requires History(trace, kind, ops, oks) && Routed(op, kind, ok, trace[|ops|], t)
    ensures History(trace + [t], kind, ops + [op], oks + [ok])
  {
    forall i | 0 <= i < |ops| + 1
      ensures HistoryStep(trace + [t], kind, ops + [op], oks + [ok], i)
    {
      if i < |ops| {
        assert HistoryStep(trace, kind, ops, oks, i);
      }
    }
  }
}
