/** Attach and Detach as programs that interleave at API calls (volume.go). Any number of calls, on any
    disks, run at once; the cloud settles attachments and detachments in its own time; every API call
    may be rejected or have its reply lost; a wait may end at any time, since Attach ignores its result. */
module DiskProtocol {
  import opened Basics

  /** A disk as the cloud reports it: the instance and device it is, or is being, attached to. */
  datatype DiskState =
    | Available
    | Attaching(instance: string, device: string)
    | InUse(instance: string, device: string)
    | Detaching(instance: string, device: string)

  predicate Bound(d: DiskState, n: string) {
    (d.Attaching? || d.InUse?) && d.instance == n
  }

  // ----- The assumed API contract -----

  /** DetachDisk takes effect only if the disk is in use by the named instance. */
  predicate CanDetach(d: DiskState, n: string) {
    d.InUse? && d.instance == n
  }

  function Detached(d: DiskState): DiskState
    requires d.InUse?
  {
    Detaching(d.instance, d.device)
  }

  function Settled(d: DiskState): DiskState {
    match d
    case Attaching(n, dev) => InUse(n, dev)
    case Detaching(_, _) => Available
    case _ => d
  }

  // ----- The programs -----

  datatype Call =
    | Attach(disk: string, instance: string)
    | Detach(disk: string, instance: string)

  /** Where a call stands. `Begin`: about to read the disk. `Evict(m)`: an Attach about to detach from m.
      `Free`, `Settle`: waiting. `Bind`: about to attach. `Confirm`: about to read again. `Release`: a
      Detach about to detach. */
  datatype Pc = Begin | Evict(from: string) | Free | Bind | Settle | Confirm | Release | Done(ok: bool)

  datatype Proc = Proc(call: Call, pc: Pc)

  /** One step of Attach: the new disk state and program counter. `device` is the cloud's choice. */
  function AttachStep(pc: Pc, n: string, d: DiskState, fate: Fate, device: string): (DiskState, Pc) {
    match pc
    case Begin =>
      if fate != Delivered then (d, Done(false))
      else if d.InUse? then (d, if d.instance == n then Done(true) else Evict(d.instance))
      else (d, Bind)
    case Evict(m) =>
      if fate == Rejected || !CanDetach(d, m) then (d, Done(false))
      else (Detached(d), if fate == Delivered then Free else Done(false))
    case Free => (d, Bind)
    case Bind =>
      if fate == Rejected || d != Available then (d, Done(false))
      else (Attaching(n, device), if fate == Delivered then Settle else Done(false))
    case Settle => (d, Confirm)
    case Confirm => (d, Done(fate == Delivered))
    case _ => (d, pc)
  }

  function DetachStep(pc: Pc, n: string, d: DiskState, fate: Fate): (DiskState, Pc) {
    match pc
    case Begin =>
      if fate != Delivered then (d, Done(false))
      else if d.Available? || d.Detaching? then (d, Done(true))
      else if d.instance != n then (d, Done(true))
      else (d, Release)
    case Release =>
      if fate == Rejected || !CanDetach(d, n) then (d, Done(false))
      else (Detached(d), Done(fate == Delivered))
    case _ => (d, pc)
  }

  function CallStep(p: Proc, d: DiskState, fate: Fate, device: string): (DiskState, Pc) {
    match p.call
    case Attach(_, n) => AttachStep(p.pc, n, d, fate, device)
    case Detach(_, n) => DetachStep(p.pc, n, d, fate)
  }

  // ----- The machine -----

  datatype World = World(disks: map<string, DiskState>, procs: map<nat, Proc>)

  datatype Event =
    | Start(pid: nat, call: Call)
    | Act(pid: nat, fate: Fate, device: string)
    | SettleDisk(disk: string)

  predicate Enabled(w: World, e: Event) {
    match e
    case Start(pid, _) => pid !in w.procs
    case Act(pid, _, _) => pid in w.procs && !w.procs[pid].pc.Done?
    case SettleDisk(x) => x in w.disks
  }

  /** A call on a disk that does not exist fails at its first read. */
  function After(w: World, e: Event): World {
    if !Enabled(w, e) then
      w
    else
      match e
      case Start(pid, c) => w.(procs := w.procs[pid := Proc(c, Begin)])
      case Act(pid, fate, device) =>
        var p := w.procs[pid];
        if p.call.disk !in w.disks then
          w.(procs := w.procs[pid := p.(pc := Done(false))])
        else
          var (d, pc) := CallStep(p, w.disks[p.call.disk], fate, device);
          World(w.disks[p.call.disk := d], w.procs[pid := p.(pc := pc)])
      case SettleDisk(x) => w.(disks := w.disks[x := Settled(w.disks[x])])
  }

  ghost predicate Step(u: World, e: Event, u': World) {
    Enabled(u, e) && u' == After(u, e)
  }

  /** A behaviour: no call is in progress at first, and event i leads from world i to the next. */
  ghost predicate Run(ws: seq<World>, es: seq<Event>) {
    && |ws| == |es| + 1 && ws[0].procs == map[]
    && forall i {:trigger es[i]} :: 0 <= i < |es| ==> Step(ws[i], es[i], ws[i + 1])
  }

  // ----- What unbinds a disk -----

  /** Event e, in world u, is the API call by which pid read the disk x as in use by n. */
  predicate ReadsInUse(u: World, e: Event, pid: nat, x: string, n: string) {
    && e.Act? && e.pid == pid && e.fate == Delivered
    && pid in u.procs && u.procs[pid].pc == Begin
    && x in u.disks && u.disks[x].InUse? && u.disks[x].instance == n
  }

  /** A call is about to evict only if it was before, or if it just read the disk in use elsewhere. */
  lemma EvictStep(u: World, e: Event, u': World, pid: nat)
    requires Step(u, e, u') && pid in u'.procs && u'.procs[pid].pc.Evict?
    ensures pid in u.procs
    ensures var p, p' := u.procs[pid], u'.procs[pid];
      || p' == p
      || (&& p'.call == p.call && p.call.Attach? && p'.pc.from != p.call.instance
          && ReadsInUse(u, e, pid, p.call.disk, p'.pc.from))
  {
  }

  /** A call about to evict n is an Attach for another instance and has read the disk in use by n. */
  lemma {:induction false} EvictHasRead(ws: seq<World>, es: seq<Event>, i: nat, pid: nat) returns (j: nat)
    requires Run(ws, es) && i < |ws| && pid in ws[i].procs && ws[i].procs[pid].pc.Evict?
    ensures var p := ws[i].procs[pid];
      p.call.Attach? && p.call.instance != p.pc.from && j < i && ReadsInUse(ws[j], es[j], pid, p.call.disk, p.pc.from)
  {
    EvictStep(ws[i - 1], es[i - 1], ws[i], pid);
    if ws[i - 1].procs[pid] == ws[i].procs[pid] {
      j := EvictHasRead(ws, es, i - 1, pid);
    } else {
      j := i - 1;
    }
  }

  /** Event e, in world u, is the API call by which pid read its disk. */
  predicate ReadsOwn(u: World, e: Event, pid: nat) {
    && e.Act? && e.pid == pid && e.fate == Delivered
    && pid in u.procs && u.procs[pid].pc == Begin && u.procs[pid].call.disk in u.disks
  }

  /** The call is past its first read and has not failed. */
  predicate Underway(w: World, pid: nat) {
    pid in w.procs && w.procs[pid].pc != Begin && w.procs[pid].pc != Done(false)
  }

  lemma UnderwayStep(u: World, e: Event, u': World, pid: nat)
    requires Step(u, e, u') && Underway(u', pid)
    ensures pid in u.procs && u.procs[pid].call == u'.procs[pid].call && (Underway(u, pid) || ReadsOwn(u, e, pid))
  {
  }

  /** In every behaviour a call goes past its first read, up to success, only after a read of its own that
      was delivered. */
  lemma {:induction false} UnderwayHasRead(ws: seq<World>, es: seq<Event>, i: nat, pid: nat) returns (j: nat)
    requires Run(ws, es) && i < |ws| && Underway(ws[i], pid)
    ensures j < i && ReadsOwn(ws[j], es[j], pid) && ws[j].procs[pid].call == ws[i].procs[pid].call
  {
    UnderwayStep(ws[i - 1], es[i - 1], ws[i], pid);
    if Underway(ws[i - 1], pid) {
      j := UnderwayHasRead(ws, es, i - 1, pid);
    } else {
      j := i - 1;
    }
  }

  /** Event e, in world u, is the API call by which pid detached its disk from another instance. */
  predicate EvictsOwn(u: World, e: Event, pid: nat) {
    && e.Act? && e.pid == pid && e.fate == Delivered && pid in u.procs && u.procs[pid].pc.Evict?
    && u.procs[pid].call.disk in u.disks && CanDetach(u.disks[u.procs[pid].call.disk], u.procs[pid].pc.from)
  }

  lemma ToBindStep(u: World, e: Event, u': World, pid: nat)
    requires Step(u, e, u') && pid in u'.procs && (u'.procs[pid].pc == Bind || u'.procs[pid].pc == Free)
    ensures pid in u.procs && u.procs[pid].call == u'.procs[pid].call
    ensures var p := u.procs[pid];
      || p.pc == Bind || p.pc == Free || EvictsOwn(u, e, pid)
      || (ReadsOwn(u, e, pid) && !u.disks[p.call.disk].InUse?)
  {
  }

  /** A call about to attach has read the disk as not in use, or has detached it, in a call that was
      delivered. */
  lemma {:induction false} BindHasCause(ws: seq<World>, es: seq<Event>, i: nat, pid: nat) returns (j: nat)
    requires Run(ws, es) && i < |ws| && pid in ws[i].procs
    requires ws[i].procs[pid].pc == Bind || ws[i].procs[pid].pc == Free
    ensures j < i && pid in ws[j].procs && ws[j].procs[pid].call == ws[i].procs[pid].call
    ensures EvictsOwn(ws[j], es[j], pid) ||
      (ReadsOwn(ws[j], es[j], pid) && !ws[j].disks[ws[j].procs[pid].call.disk].InUse?)
  {
    ToBindStep(ws[i - 1], es[i - 1], ws[i], pid);
    var pc := ws[i - 1].procs[pid].pc;
    if pc == Bind || pc == Free {
      j := BindHasCause(ws, es, i - 1, pid);
    } else {
      j := i - 1;
    }
  }

  predicate Holds(w: World, x: string, n: string) {
    x in w.disks && Bound(w.disks[x], n)
  }

  /** Event i takes the disk x from n, on behalf of a Detach naming n, or of an Attach for another
      instance that had read the disk as in use by n. */
  ghost predicate Unbinds(ws: seq<World>, es: seq<Event>, i: nat, x: string, n: string)
    requires i < |es| && i + 1 < |ws|
  {
    && Holds(ws[i], x, n) && !Holds(ws[i + 1], x, n)
    && es[i].Act? && es[i].fate != Rejected && es[i].pid in ws[i].procs
    && var p := ws[i].procs[es[i].pid];
       || p == Proc(Detach(x, n), Release)
       || (&& p.call.Attach? && p.call.disk == x && p.call.instance != n && p.pc == Evict(n)
           && exists j: nat :: j < i && ReadsInUse(ws[j], es[j], es[i].pid, x, n))
  }

  lemma UnbindStep(u: World, e: Event, u': World, x: string, n: string)
    requires Step(u, e, u') && Holds(u, x, n) && !Holds(u', x, n)
    ensures e.Act? && e.fate != Rejected && e.pid in u.procs
    ensures var p := u.procs[e.pid];
      p == Proc(Detach(x, n), Release) || (p.call.Attach? && p.call.disk == x && p.pc == Evict(n))
  {
  }

  /** In every behaviour, a disk stops being bound to n only by a Detach naming n, or by an Attach for
      another instance that had read the disk as in use by n. */
  lemma UnbindingHasCause(ws: seq<World>, es: seq<Event>, i: nat, x: string, n: string)
    requires Run(ws, es) && i < |es| && Holds(ws[i], x, n) && !Holds(ws[i + 1], x, n)
    ensures Unbinds(ws, es, i, x, n)
  {
    UnbindStep(ws[i], es[i], ws[i + 1], x, n);
    if ws[i].procs[es[i].pid].call.Attach? {
      var j := EvictHasRead(ws, es, i, es[i].pid);
    }
  }

  // ----- What a successful call has seen -----

  /** At some world up to j in which pid was in progress, the disk x was bound to n. */
  ghost predicate BoundWithin(ws: seq<World>, pid: nat, x: string, n: string, j: nat)
    requires j < |ws|
  {
    exists k: nat :: k <= j && Running(ws[k], pid) && Holds(ws[k], x, n)
  }

  predicate Running(w: World, pid: nat) {
    pid in w.procs && !w.procs[pid].pc.Done?
  }

  /** An Attach is past its attach call only if it was before, or if that call just bound the disk. */
  lemma BindStep(u: World, e: Event, u': World, pid: nat)
    requires Step(u, e, u') && pid in u'.procs && u'.procs[pid].call.Attach?
    requires u'.procs[pid].pc == Settle || u'.procs[pid].pc == Confirm
    ensures pid in u.procs && u.procs[pid].call == u'.procs[pid].call
    ensures var c := u'.procs[pid].call;
      || u.procs[pid].pc == Settle || u.procs[pid].pc == Confirm
      || (c.disk in u'.disks && Bound(u'.disks[c.disk], c.instance))
  {
  }

  lemma {:induction false} PastBind(ws: seq<World>, es: seq<Event>, i: nat, pid: nat)
    requires Run(ws, es) && i < |ws| && pid in ws[i].procs && ws[i].procs[pid].call.Attach?
    requires ws[i].procs[pid].pc == Settle || ws[i].procs[pid].pc == Confirm
    ensures var c := ws[i].procs[pid].call; BoundWithin(ws, pid, c.disk, c.instance, i)
  {
    BindStep(ws[i - 1], es[i - 1], ws[i], pid);
    var pc := ws[i - 1].procs[pid].pc;
    if pc == Settle || pc == Confirm {
      PastBind(ws, es, i - 1, pid);
    } else {
      assert Running(ws[i], pid);
    }
  }

  /** The event by which pid returns. */
  ghost predicate Returns(u: World, u': World, pid: nat, ok: bool) {
    Running(u, pid) && pid in u'.procs && u'.procs[pid].pc == Done(ok)
  }

  lemma AttachReturn(u: World, e: Event, u': World, pid: nat)
    requires Step(u, e, u') && Returns(u, u', pid, true) && u.procs[pid].call.Attach?
    ensures var p := u.procs[pid];
      p.pc == Confirm || (p.call.disk in u.disks && Bound(u.disks[p.call.disk], p.call.instance))
  {
  }

  /** A call that returns success does so by an API call that was delivered. */
  lemma SuccessWasDelivered(u: World, e: Event, u': World, pid: nat)
    requires Step(u, e, u') && Returns(u, u', pid, true)
    ensures e.Act? && e.pid == pid && e.fate == Delivered && u.procs[pid].call.disk in u.disks
  {
  }

  /** Every Attach that returns success had, while it was in progress, a moment when the disk was bound
      to its instance. */
  lemma AttachSuccessWasBound(ws: seq<World>, es: seq<Event>, i: nat, pid: nat)
    requires Run(ws, es) && i < |es| && Returns(ws[i], ws[i + 1], pid, true) && ws[i].procs[pid].call.Attach?
    ensures var c := ws[i].procs[pid].call; BoundWithin(ws, pid, c.disk, c.instance, i)
  {
    AttachReturn(ws[i], es[i], ws[i + 1], pid);
    if ws[i].procs[pid].pc == Confirm {
      PastBind(ws, es, i, pid);
    }
  }

  /** Every Detach that returns success saw the disk, at its last API call, either available, detaching
      or bound to another instance, or left it detaching. */
  lemma DetachSuccessWasUnbound(ws: seq<World>, es: seq<Event>, i: nat, pid: nat)
    requires Run(ws, es) && i < |es| && Returns(ws[i], ws[i + 1], pid, true) && ws[i].procs[pid].call.Detach?
    ensures var c := ws[i].procs[pid].call;
      && c.disk in ws[i].disks && c.disk in ws[i + 1].disks
      && (|| (ws[i].procs[pid].pc == Begin && Loose(ws[i].disks[c.disk], c.instance))
          || (ws[i].procs[pid].pc == Release && ws[i + 1].disks[c.disk].Detaching?))
  {
    assert Step(ws[i], es[i], ws[i + 1]);
  }

  /** Available, detaching, or bound to an instance other than n. */
  predicate Loose(d: DiskState, n: string) {
    d.Available? || d.Detaching? || d.instance != n
  }

  // ----- Success that no longer holds -----

  /** The last event at which a binding was lost. */
  lemma {:induction false} LastLoss(ws: seq<World>, k: nat, j: nat, x: string, n: string) returns (m: nat)
    requires k <= j < |ws| && Holds(ws[k], x, n) && !Holds(ws[j], x, n)
    ensures k <= m < j && Holds(ws[m], x, n)
    ensures forall q :: m < q <= j ==> !Holds(ws[q], x, n)
    decreases j
  {
    m := j - 1;
    if !Holds(ws[m], x, n) {
      m := LastLoss(ws, k, m, x, n);
    }
  }

  /** A binding that was lost was taken away by a call entitled to it, for the last time at some event m. */
  lemma LossHasCulprit(ws: seq<World>, es: seq<Event>, k: nat, j: nat, x: string, n: string) returns (m: nat)
    requires Run(ws, es) && k <= j < |ws| && Holds(ws[k], x, n) && !Holds(ws[j], x, n)
    ensures k <= m < j && Unbinds(ws, es, m, x, n)
    ensures forall q :: m < q <= j ==> !Holds(ws[q], x, n)
  {
    m := LastLoss(ws, k, j, x, n);
    UnbindingHasCause(ws, es, m, x, n);
  }

  /** A call once made stays known, and once returned stays returned. */
  lemma {:induction false} CallsStay(ws: seq<World>, es: seq<Event>, k: nat, j: nat, pid: nat)
    requires Run(ws, es) && k <= j < |ws| && pid in ws[k].procs
    ensures pid in ws[j].procs && (ws[k].procs[pid].pc.Done? ==> ws[j].procs[pid] == ws[k].procs[pid])
    decreases j
  {
    if k < j {
      CallsStay(ws, es, k, j - 1, pid);
      assert Step(ws[j - 1], es[j - 1], ws[j]);
    }
  }

  /** While the call was in progress, event m took the disk from n, and it was not bound to n again up to
      the end of event i. */
  ghost predicate TakenWithin(ws: seq<World>, es: seq<Event>, pid: nat, x: string, n: string, m: nat, i: nat)
    requires |ws| == |es| + 1 && m <= i < |es|
  {
    Running(ws[m], pid) && Unbinds(ws, es, m, x, n) && forall q :: m < q <= i + 1 ==> !Holds(ws[q], x, n)
  }

  /** The disk of an Attach that returns success is not bound to its instance on return, exactly when
      while the Attach was in progress a Detach naming the instance, or an Attach for another, took the
      disk away and nothing bound it again. */
  lemma StaleAttachExactly(ws: seq<World>, es: seq<Event>, i: nat, pid: nat)
    requires Run(ws, es) && i < |es| && Returns(ws[i], ws[i + 1], pid, true) && ws[i].procs[pid].call.Attach?
    ensures var c := ws[i].procs[pid].call;
      !Holds(ws[i + 1], c.disk, c.instance) <==>
      exists m: nat :: m <= i && TakenWithin(ws, es, pid, c.disk, c.instance, m, i)
  {
    var c := ws[i].procs[pid].call;
    if !Holds(ws[i + 1], c.disk, c.instance) {
      AttachSuccessWasBound(ws, es, i, pid);
      var k: nat :| k <= i && Running(ws[k], pid) && Holds(ws[k], c.disk, c.instance);
      var m := LossHasCulprit(ws, es, k, i + 1, c.disk, c.instance);
      CallsStay(ws, es, k, m, pid);
      CallsStay(ws, es, m, i, pid);
      assert TakenWithin(ws, es, pid, c.disk, c.instance, m, i);
    }
  }

  lemma Extend(ws: seq<World>, es: seq<Event>, e: Event, w: World) returns (ws': seq<World>, es': seq<Event>)
    requires Run(ws, es) && Step(ws[|es|], e, w)
    ensures Run(ws', es') && es' == es + [e] && ws' == ws + [w]
  {
    ws', es' := ws + [w], es + [e];
    forall i | 0 <= i < |es'|
      ensures Step(ws'[i], es'[i], ws'[i + 1])
    {
      if i < |es| {
        assert Step(ws[i], es[i], ws[i + 1]);
      }
    }
  }

  /** The calls that may take a disk from n. */
  predicate Entitled(c: Call, x: string, n: string) {
    c.disk == x && if c.Detach? then c.instance == n else c.instance != n
  }

  /** A call entitled to it can take a disk in use by n away. */
  lemma CulpritTakes(ws: seq<World>, es: seq<Event>, q: nat, culprit: Call, n: string, device: string)
    returns (ws': seq<World>, es': seq<Event>)
    requires Run(ws, es) && q !in ws[|es|].procs && Entitled(culprit, culprit.disk, n)
    requires var w := ws[|es|]; culprit.disk in w.disks && w.disks[culprit.disk] == InUse(n, device)
    ensures Run(ws', es') && ws <= ws' && es <= es'
    ensures var w, w' := ws[|es|], ws'[|es'|];
      && w'.disks == w.disks[culprit.disk := Detaching(n, device)]
      && forall pid :: pid in w.procs ==> pid in w'.procs && w'.procs[pid] == w.procs[pid]
  {
    var w := ws[|es|];
    var act := Act(q, Delivered, "");
    var w1 := After(w, Start(q, culprit));
    var w2 := After(w1, act);
    ws', es' := Extend(ws, es, Start(q, culprit), w1);
    assert w1.procs[q] == Proc(culprit, Begin) && w1.disks == w.disks;
    ws', es' := Extend(ws', es', act, w2);
    assert w2.procs[q] == Proc(culprit, if culprit.Detach? then Release else Evict(n)) && w2.disks == w.disks;
    ws', es' := Extend(ws', es', act, After(w2, act));
  }

  /** It can happen whenever an Attach is about to read the disk again: whichever entitled call comes in
      between, the Attach returns success and the disk is gone. Attach does not look at what the second
      read says. */
  lemma AttachCanReturnStale(ws: seq<World>, es: seq<Event>, pid: nat, q: nat, culprit: Call, n: string, device: string)
    returns (ws': seq<World>, es': seq<Event>)
    requires Run(ws, es) && q !in ws[|es|].procs && Entitled(culprit, culprit.disk, n)
    requires var w := ws[|es|];
      && culprit.disk in w.disks && w.disks[culprit.disk] == InUse(n, device)
      && pid in w.procs && w.procs[pid] == Proc(Attach(culprit.disk, n), Confirm)
    ensures Run(ws', es') && ws <= ws' && es < es'
    ensures var u, u' := ws'[|es'| - 1], ws'[|es'|];
      Returns(u, u', pid, true) && u.procs[pid].call == Attach(culprit.disk, n) && !Holds(u', culprit.disk, n)
  {
    ws', es' := CulpritTakes(ws, es, q, culprit, n, device);
    var u, act := ws'[|es'|], Act(pid, Delivered, "");
    ws', es' := Extend(ws', es', act, After(u, act));
  }

  /** For every disk and instance an Attach does come to its second read with the disk in use. */
  lemma AttachComesToConfirm(x: string, n: string, device: string) returns (ws: seq<World>, es: seq<Event>)
    ensures Run(ws, es)
    ensures ws[|es|] == World(map[x := InUse(n, device)], map[0 := Proc(Attach(x, n), Confirm)])
  {
    ws, es := AttachComesToBind(x, n);
    var taken := World(map[x := Attaching(n, device)], map[0 := Proc(Attach(x, n), Settle)]);
    ws, es := Extend(ws, es, Act(0, Delivered, device), taken);
    ws, es := Extend(ws, es, Act(0, Delivered, ""), taken.(procs := map[0 := Proc(Attach(x, n), Confirm)]));
    ws, es := Extend(ws, es, SettleDisk(x), World(map[x := InUse(n, device)], map[0 := Proc(Attach(x, n), Confirm)]));
  }

  /** So for every disk and instance, and whichever call is entitled to take the disk, there is a behaviour
      in which Attach returns success and the disk is gone. */
  lemma StaleReturnHappens(culprit: Call, n: string) returns (ws: seq<World>, es: seq<Event>)
    requires Entitled(culprit, culprit.disk, n)
    ensures Run(ws, es) && es != []
    ensures var u, u' := ws[|es| - 1], ws[|es|];
      Returns(u, u', 0, true) && u.procs[0].call == Attach(culprit.disk, n) && !Holds(u', culprit.disk, n)
  {
    ws, es := AttachComesToConfirm(culprit.disk, n, "/dev/xvdb");
    ws, es := AttachCanReturnStale(ws, es, 0, 1, culprit, n, "/dev/xvdb");
  }

  lemma AttachComesToBind(x: string, n: string) returns (ws: seq<World>, es: seq<Event>)
    ensures Run(ws, es) && ws[|es|] == World(map[x := Available], map[0 := Proc(Attach(x, n), Bind)])
  {
    var free := map[x := Available];
    ws, es := [World(free, map[])], [];
    ws, es := Extend(ws, es, Start(0, Attach(x, n)), World(free, map[0 := Proc(Attach(x, n), Begin)]));
    ws, es := Extend(ws, es, Act(0, Delivered, ""), World(free, map[0 := Proc(Attach(x, n), Bind)]));
  }

  // ----- One call on its own -----

  /** What an Attach standing at pc does when nothing else runs: call number k has the fate fate(k), and a
      wait that is delivered lets the disk settle. The disk, the outcome, and the next call number. */
  function AttachAlone(pc: Pc, n: string, d: DiskState, fate: nat -> Fate, device: nat -> string, k: nat)
    : (DiskState, bool, nat)
    decreases Rank(pc)
  {
    if pc.Done? then
      (d, pc.ok, k)
    else if pc.Release? then
      (d, false, k)
    else
      var (d', pc') := AloneNext(pc, n, d, fate(k), device(k));
      AttachAlone(pc', n, d', fate, device, k + 1)
  }

  function AloneNext(pc: Pc, n: string, d: DiskState, fate: Fate, device: string): (r: (DiskState, Pc))
    ensures !pc.Done? && !pc.Release? ==> Rank(r.1) < Rank(pc) && !r.1.Release?
  {
    var (d', pc') := AttachStep(pc, n, d, fate, device);
    (if (pc.Free? || pc.Settle?) && fate == Delivered then Settled(d') else d', pc')
  }

  function DetachAlone(pc: Pc, n: string, d: DiskState, fate: nat -> Fate, k: nat): (DiskState, bool, nat)
    decreases Rank(pc)
  {
    if pc.Done? then
      (d, pc.ok, k)
    else if !pc.Begin? && !pc.Release? then
      (d, false, k)
    else
      var (d1, pc1) := DetachStep(pc, n, d, fate(k));
      DetachAlone(pc1, n, d1, fate, k + 1)
  }

  function Rank(pc: Pc): nat {
    match pc
    case Begin => 7
    case Evict(_) => 6
    case Free => 5
    case Bind => 4
    case Settle => 3
    case Confirm => 2
    case Release => 1
    case Done(_) => 0
  }

  /** AttachAlone from Begin and from Bind, written out. */
  function AttachResult(n: string, d: DiskState, fate: nat -> Fate, device: nat -> string, k: nat)
    : (DiskState, bool, nat)
  {
    if fate(k) != Delivered then (d, false, k + 1)
    else if !d.InUse? then BindResult(n, d, fate, device, k + 1)
    else if d.instance == n then (d, true, k + 1)
    else if fate(k + 1) == Rejected then (d, false, k + 2)
    else if fate(k + 1) == Lost then (Detached(d), false, k + 2)
    else BindResult(n, if fate(k + 2) == Delivered then Available else Detached(d), fate, device, k + 3)
  }

  function BindResult(n: string, d: DiskState, fate: nat -> Fate, device: nat -> string, k: nat)
    : (DiskState, bool, nat)
  {
    if fate(k) == Rejected || d != Available then (d, false, k + 1)
    else if fate(k) == Lost then (Attaching(n, device(k)), false, k + 1)
    else
      var d' := if fate(k + 1) == Delivered then InUse(n, device(k)) else Attaching(n, device(k));
      (d', fate(k + 2) == Delivered, k + 3)
  }

  lemma BindResultIsAlone(n: string, d: DiskState, fate: nat -> Fate, device: nat -> string, k: nat)
    ensures AttachAlone(Bind, n, d, fate, device, k) == BindResult(n, d, fate, device, k)
  {
    if fate(k) == Delivered && d == Available {
      assert AttachAlone(Bind, n, d, fate, device, k) ==
        AttachAlone(Settle, n, Attaching(n, device(k)), fate, device, k + 1);
    }
  }

  lemma AttachResultIsAlone(n: string, d: DiskState, fate: nat -> Fate, device: nat -> string, k: nat)
    ensures AttachAlone(Begin, n, d, fate, device, k) == AttachResult(n, d, fate, device, k)
  {
    if fate(k) == Delivered {
      if !d.InUse? {
        BindResultIsAlone(n, d, fate, device, k + 1);
      } else if d.instance != n {
        assert AttachAlone(Begin, n, d, fate, device, k) == AttachAlone(Evict(d.instance), n, d, fate, device, k + 1);
        if fate(k + 1) == Delivered {
          assert AttachAlone(Evict(d.instance), n, d, fate, device, k + 1) ==
            AttachAlone(Free, n, Detached(d), fate, device, k + 2);
          BindResultIsAlone(n, if fate(k + 2) == Delivered then Available else Detached(d), fate, device, k + 3);
        }
      }
    }
  }

  /** One step of AttachAlone as events of the machine. */
  lemma AloneStep(ws: seq<World>, es: seq<Event>, pid: nat, x: string, n: string, pc: Pc, fate: Fate, device: string)
    returns (ws': seq<World>, es': seq<Event>)
    requires Run(ws, es) && !pc.Done?
    requires var w := ws[|es|]; pid in w.procs && w.procs[pid] == Proc(Attach(x, n), pc) && x in w.disks
    ensures Run(ws', es') && ws <= ws' && es <= es'
    ensures var w := ws[|es|]; var (d, pc') := AloneNext(pc, n, w.disks[x], fate, device);
      ws'[|es'|] == World(w.disks[x := d], w.procs[pid := Proc(Attach(x, n), pc')])
  {
    var w, e := ws[|es|], Act(pid, fate, device);
    ws', es' := Extend(ws, es, e, After(w, e));
    if (pc.Free? || pc.Settle?) && fate == Delivered {
      var w1 := ws'[|es'|];
      ws', es' := Extend(ws', es', SettleDisk(x), After(w1, SettleDisk(x)));
    }
  }

  /** A call run on its own is one of the behaviours: from any world where it stands at pc, the machine
      can bring it to the outcome and the disk state that AttachAlone gives. */
  lemma {:induction false} AloneIsBehaviour(ws: seq<World>, es: seq<Event>, pid: nat, x: string, n: string, pc: Pc,
                                            fate: nat -> Fate, device: nat -> string, k: nat)
    returns (ws': seq<World>, es': seq<Event>)
    requires Run(ws, es) && !pc.Release?
    requires var w := ws[|es|]; pid in w.procs && w.procs[pid] == Proc(Attach(x, n), pc) && x in w.disks
    ensures Run(ws', es') && ws <= ws' && es <= es'
    ensures var w, w' := ws[|es|], ws'[|es'|]; var (d, ok, _) := AttachAlone(pc, n, w.disks[x], fate, device, k);
      w' == World(w.disks[x := d], w.procs[pid := Proc(Attach(x, n), Done(ok))])
    decreases Rank(pc)
  {
    if pc.Done? {
      ws', es' := ws, es;
    } else {
      var (d, pc') := AloneNext(pc, n, ws[|es|].disks[x], fate(k), device(k));
      ws', es' := AloneStep(ws, es, pid, x, n, pc, fate(k), device(k));
      ws', es' := AloneIsBehaviour(ws', es', pid, x, n, pc', fate, device, k + 1);
    }
  }

  /** And so is a Detach on its own. */
  lemma {:induction false} DetachIsBehaviour(ws: seq<World>, es: seq<Event>, pid: nat, x: string, n: string, pc: Pc,
                                             fate: nat -> Fate, k: nat)
    returns (ws': seq<World>, es': seq<Event>)
    requires Run(ws, es) && (pc.Begin? || pc.Release? || pc.Done?)
    requires var w := ws[|es|]; pid in w.procs && w.procs[pid] == Proc(Detach(x, n), pc) && x in w.disks
    ensures Run(ws', es') && ws <= ws' && es <= es'
    ensures var w, w' := ws[|es|], ws'[|es'|]; var (d, ok, _) := DetachAlone(pc, n, w.disks[x], fate, k);
      w' == World(w.disks[x := d], w.procs[pid := Proc(Detach(x, n), Done(ok))])
    decreases Rank(pc)
  {
    if pc.Done? {
      ws', es' := ws, es;
    } else {
      var w, e := ws[|es|], Act(pid, fate(k), "");
      var (_, pc') := DetachStep(pc, n, w.disks[x], fate(k));
      ws', es' := Extend(ws, es, e, After(w, e));
      ws', es' := DetachIsBehaviour(ws', es', pid, x, n, pc', fate, k + 1);
    }
  }

  /** The attach call numbered c on an available disk, the wait and the read after it: a call that fails ends
      it, and a wait that fails does not. */
  ghost predicate BindOutcome(n: string, fate: nat -> Fate, device: nat -> string, c: nat, d': DiskState, ok: bool,
                              k': nat) {
    match fate(c)
    case Rejected => !ok && d' == Available && k' == c + 1
    case Lost => !ok && d' == Attaching(n, device(c)) && k' == c + 1
    case Delivered =>
      && (ok <==> fate(c + 2) == Delivered) && k' == c + 3
      && d' == if fate(c + 1) == Delivered then InUse(n, device(c)) else Attaching(n, device(c))
  }

  /** What an Attach on its own does under every fault schedule. A failed read, a refused detach or a refused
      attach ends it with an error and no further call; success means that every call was delivered, except
      the wait for the attachment. */
  lemma AttachExactly(n: string, d: DiskState, fate: nat -> Fate, device: nat -> string, k: nat)
    ensures var (d', ok, k') := AttachAlone(Begin, n, d, fate, device, k);
      if fate(k) != Delivered then
        !ok && d' == d && k' == k + 1
      else match d
        case Available => BindOutcome(n, fate, device, k + 1, d', ok, k')
        case Attaching(_, _) => !ok && d' == d && k' == k + 2
        case Detaching(_, _) => !ok && d' == d && k' == k + 2
        case InUse(m, dev) =>
          if m == n then
            ok && d' == d && k' == k + 1
          else match fate(k + 1)
            case Rejected => !ok && d' == d && k' == k + 2
            case Lost => !ok && d' == Detaching(m, dev) && k' == k + 2
            case Delivered =>
              if fate(k + 2) != Delivered then !ok && d' == Detaching(m, dev) && k' == k + 4
              else BindOutcome(n, fate, device, k + 3, d', ok, k')
  {
    AttachResultIsAlone(n, d, fate, device, k);
  }

  /** The same for Detach. */
  lemma DetachExactly(n: string, d: DiskState, fate: nat -> Fate, k: nat)
    ensures var (d', ok, k') := DetachAlone(Begin, n, d, fate, k);
      if fate(k) != Delivered then
        !ok && d' == d && k' == k + 1
      else match d
        case Available => ok && d' == d && k' == k + 1
        case Detaching(_, _) => ok && d' == d && k' == k + 1
        case Attaching(m, _) => if m == n then !ok && d' == d && k' == k + 2 else ok && d' == d && k' == k + 1
        case InUse(m, dev) =>
          if m != n then
            ok && d' == d && k' == k + 1
          else
            && (ok <==> fate(k + 1) == Delivered) && k' == k + 2
            && d' == if fate(k + 1) == Rejected then d else Detaching(m, dev)
  {
    var (d1, pc1) := DetachStep(Begin, n, d, fate(k));
    assert DetachAlone(Begin, n, d, fate, k) == DetachAlone(pc1, n, d1, fate, k + 1);
  }

  /** An Attach on its own that succeeds leaves the disk bound to its instance, whatever faults it met. */
  lemma AttachAloneBinds(n: string, d: DiskState, fate: nat -> Fate, device: nat -> string, k: nat)
    ensures var (d', ok, _) := AttachAlone(Begin, n, d, fate, device, k); ok ==> Bound(d', n)
  {
    AttachResultIsAlone(n, d, fate, device, k);
  }

  /** Undisturbed, Attach succeeds exactly on a disk that is not on its way, and leaves it in use by its
      instance; a disk already there costs one read. */
  lemma AttachAloneQuiet(n: string, d: DiskState, fate: nat -> Fate, device: nat -> string, k: nat)
    requires Clean(fate, k, k + 6)
    ensures AttachAlone(Begin, n, d, fate, device, k) == AttachResult(n, d, fate, device, k)
    ensures var (d', ok, k') := AttachResult(n, d, fate, device, k);
      && (ok <==> d.Available? || d.InUse?)
      && (if ok then d'.InUse? && d'.instance == n else d' == d)
      && (d.InUse? && d.instance == n ==> d' == d && k' == k + 1)
      && k' <= k + 6
  {
    AttachResultIsAlone(n, d, fate, device, k);
  }

  /** Undisturbed, Detach always succeeds unless the disk is still attaching to its instance, and then the
      disk is not bound to the instance; a disk of another instance is left alone. */
  lemma DetachAloneQuiet(n: string, d: DiskState, fate: nat -> Fate, k: nat)
    requires Clean(fate, k, k + 2)
    ensures var (d', ok, _) := DetachAlone(Begin, n, d, fate, k);
      && (ok <==> !(d.Attaching? && d.instance == n))
      && (ok ==> !Bound(d', n))
      && (!Bound(d, n) ==> d' == d)
  {
  }
}
