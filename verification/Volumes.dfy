/** The volume operations as the plug-in calls them, one at a time (volume.go). */
module Volumes {
  import opened Basics
  import opened Instances
  import opened DiskProtocol
  import opened Devices
  import opened Paths

  /** The provider's own settings: its instance and host name, how nodes are named, and whether it has
      access keys. */
  datatype Config = Config(instance: string, hostname: string, kind: NodeNameType, authorized: bool)

  datatype VolumeStatus =
    | Success(devicePath: string, volumeName: string, attached: bool)
    | Failure
    | NotSupported

  /** The instance an Attach or Detach for the node is about. */
  function Target(cfg: Config, inventory: Option<seq<Instance>>, node: string): Option<string> {
    var id :=
      if node == "" then cfg.instance
      else if inventory.None? then ""
      else
        var r := Resolve(inventory.value, cfg.kind, node);
        if r.Ok? then r.value.id else "";
    if id == "" then None else Some(id)
  }

  /** The target is the configured instance when no node is named, and otherwise the instance the node name
      resolves to; there is none if the id is empty or the lookup fails. */
  lemma TargetExactly(cfg: Config, inventory: Option<seq<Instance>>, node: string)
    ensures node == "" ==> Target(cfg, inventory, node) == if cfg.instance == "" then None else Some(cfg.instance)
    ensures node != "" ==> forall id :: Target(cfg, inventory, node) == Some(id) <==>
      && id != "" && inventory.Some? && Resolve(inventory.value, cfg.kind, node).Ok?
      && Resolve(inventory.value, cfg.kind, node).value.id == id
  {
  }

  function DeviceOf(d: DiskState): string {
    if d.Available? then "" else d.device
  }

  /** The instance a disk is reported on; none for an available one. */
  function InstanceOf(d: DiskState): string {
    if d.Available? then "" else d.instance
  }

  /** What IsAttached reports of a disk. */
  predicate IsAttachedTo(d: DiskState, n: string) {
    InstanceOf(d) == n && d.InUse?
  }

  class Ecs {
    const fate: nat -> Fate
    const device: nat -> string
    var calls: nat
    var disks: map<string, DiskState>

    constructor (fate: nat -> Fate, device: nat -> string, disks: map<string, DiskState>)
      ensures this.fate == fate && this.device == device && calls == 0 && this.disks == disks
    {
      this.fate, this.device := fate, device;
      this.calls, this.disks := 0, disks;
    }

    // ----- The API calls -----

    /** getDiskById: an error for a failed query and for an unknown disk. */
    method GetDiskById(id: string) returns (r: Option<DiskState>)
      modifies `calls
      ensures calls == old(calls) + 1
      ensures r == if fate(old(calls)) == Delivered && id in disks then Some(disks[id]) else None
    {
      var f := fate(calls);
      calls := calls + 1;
      return if f == Delivered && id in disks then Some(disks[id]) else None;
    }

    method DetachDisk(instance: string, id: string) returns (ok: bool)
      requires id in disks
      modifies `calls, `disks
      ensures calls == old(calls) + 1
      ensures var f, d := fate(old(calls)), old(disks)[id]; var applied := f != Rejected && CanDetach(d, instance);
        ok == (applied && f == Delivered) && disks == if applied then old(disks)[id := Detached(d)] else old(disks)
    {
      var f := fate(calls);
      calls := calls + 1;
      if f == Rejected || !CanDetach(disks[id], instance) {
        return false;
      }
      disks := disks[id := Detached(disks[id])];
      return f == Delivered;
    }

    method AttachDisk(instance: string, id: string) returns (ok: bool)
      requires id in disks
      modifies `calls, `disks
      ensures calls == old(calls) + 1
      ensures var f, d := fate(old(calls)), old(disks)[id]; var applied := f != Rejected && d.Available?;
        ok == (applied && f == Delivered)
        && disks == if applied then old(disks)[id := Attaching(instance, device(old(calls)))] else old(disks)
    {
      var k := calls;
      calls := calls + 1;
      if fate(k) == Rejected || disks[id] != Available {
        return false;
      }
      disks := disks[id := Attaching(instance, device(k))];
      return fate(k) == Delivered;
    }

    /** Waits for the disk to settle, or gives up. */
    method WaitForDisk(id: string)
      requires id in disks
      modifies `calls, `disks
      ensures calls == old(calls) + 1
      ensures disks == if fate(old(calls)) == Delivered then old(disks)[id := Settled(old(disks)[id])] else old(disks)
    {
      var f := fate(calls);
      calls := calls + 1;
      if f == Delivered {
        disks := disks[id := Settled(disks[id])];
      }
    }

    // ----- The operations -----

    /** The part of Attach after the disk is thought free: attach, wait, read. */
    method Bind(instanceId: string, diskId: string) returns (r: VolumeStatus)
      requires diskId in disks
      modifies `calls, `disks
      ensures var (d, ok, k) := BindResult(instanceId, old(disks)[diskId], fate, device, old(calls));
        && disks == old(disks)[diskId := d] && calls == k
        && r == if ok then Success(ApiToLocal(DeviceOf(d)), "", false) else Failure
    {
      var ok := AttachDisk(instanceId, diskId);
      if !ok {
        return Failure;
      }
      WaitForDisk(diskId);
      var disk := GetDiskById(diskId);
      if disk.None? {
        return Failure;
      }
      return Success(ApiToLocal(DeviceOf(disk.value)), "", false);
    }

    /** Detach from another instance and wait. */
    method Evict(diskId: string) returns (ok: bool)
      requires diskId in disks && disks[diskId].InUse?
      modifies `calls, `disks
      ensures var d, f := old(disks)[diskId], fate(old(calls));
        && ok == (f == Delivered)
        && (!ok ==> calls == old(calls) + 1 && disks == old(disks)[diskId := if f == Lost then Detached(d) else d])
        && (ok ==> calls == old(calls) + 2)
        && (ok ==> disks == old(disks)[diskId := if fate(old(calls) + 1) == Delivered then Available else Detached(d)])
    {
      ok := DetachDisk(disks[diskId].instance, diskId);
      if ok {
        WaitForDisk(diskId);
      }
    }

    /** The part of Attach before it: read, and evict the disk from another instance. */
    method AttachTo(instanceId: string, diskId: string) returns (r: VolumeStatus)
      requires diskId in disks
      modifies `calls, `disks
      ensures var (d, ok, k) := AttachResult(instanceId, old(disks)[diskId], fate, device, old(calls));
        && disks == old(disks)[diskId := d] && calls == k
        && r == if ok then Success(ApiToLocal(DeviceOf(d)), "", false) else Failure
    {
      var disk := GetDiskById(diskId);
      if disk.None? {
        return Failure;
      }
      if disk.value.InUse? {
        if disk.value.instance == instanceId {
          return Success(ApiToLocal(DeviceOf(disk.value)), "", false);
        }
        var ok := Evict(diskId);
        if !ok {
          return Failure;
        }
      }
      r := Bind(instanceId, diskId);
    }

    /** Attaches the disk to the node's instance, detaching it from another first. It does to the disk
        what the Attach program of the protocol does on its own, under every fault schedule. */
    method Attach(cfg: Config, inventory: Option<seq<Instance>>, diskId: string, node: string) returns (r: VolumeStatus)
      modifies `calls, `disks
      ensures var target := Target(cfg, inventory, node);
        if target.None? || diskId == "" then
          r == Failure && disks == old(disks) && calls == old(calls)
        else if diskId !in old(disks) then
          r == Failure && disks == old(disks) && calls == old(calls) + 1
        else
          var (d, ok, k) := AttachResult(target.value, old(disks)[diskId], fate, device, old(calls));
          && disks == old(disks)[diskId := d] && calls == k
          && r == if ok then Success(ApiToLocal(DeviceOf(d)), "", false) else Failure
    {
      var instanceId := ResolveTarget(cfg, inventory, node);
      if instanceId.None? || diskId == "" {
        return Failure;
      }
      if diskId !in disks {
        var _ := GetDiskById(diskId);
        return Failure;
      }
      r := AttachTo(instanceId.value, diskId);
    }

    static method ResolveTarget(cfg: Config, inventory: Option<seq<Instance>>, node: string) returns (r: Option<string>)
      ensures r == Target(cfg, inventory, node)
    {
      var instanceId := cfg.instance;
      if node != "" {
        var instance := GetInstanceByNodeName(inventory, cfg.kind, node);
        if instance.Err? {
          return None;
        }
        instanceId := instance.value.id;
      }
      return if instanceId == "" then None else Some(instanceId);
    }

    /** Detaches the disk named by the last part of the device name from the node's instance. */
    method Detach(cfg: Config, inventory: Option<seq<Instance>>, deviceName: string, node: string)
      returns (r: VolumeStatus)
      modifies `calls, `disks
      ensures var target, diskId := Target(cfg, inventory, node), Base(deviceName);
        if target.None? then
          r == Failure && disks == old(disks) && calls == old(calls)
        else if diskId !in old(disks) then
          r == Failure && disks == old(disks) && calls == old(calls) + 1
        else
          var (d, ok, k) := DetachAlone(Begin, target.value, old(disks)[diskId], fate, old(calls));
          && disks == old(disks)[diskId := d] && calls == k
          && r == if ok then Success("", "", false) else Failure
    {
      var instanceId := ResolveTarget(cfg, inventory, node);
      if instanceId.None? {
        return Failure;
      }
      var diskId := Base(deviceName);
      var disk := GetDiskById(diskId);
      if disk.None? {
        return Failure;
      }
      if disk.value.Detaching? || disk.value.Available? {
        return Success("", "", false);
      }
      if disk.value.instance != instanceId.value {
        return Success("", "", false);
      }
      var ok := DetachDisk(instanceId.value, diskId);
      return if ok then Success("", "", false) else Failure;
    }

    /** The volume name leads Detach back to the disk: on its own exactly for a plain disk id or the root,
        and at the end of every path exactly for a plain disk id. */
    static method GetVolumeName(diskId: string) returns (r: VolumeStatus)
      ensures r.Success? <==> diskId != ""
      ensures r.Success? ==> r.volumeName == diskId
      ensures r.Success? ==> (Base(r.volumeName) == diskId <==> '/' !in diskId || diskId == "/")
      ensures r.Success? ==> ((forall path :: Base(path + "/" + r.volumeName) == diskId) <==> '/' !in diskId)
    {
      if diskId == "" {
        return Failure;
      }
      BaseOfName(diskId);
      if '/' in diskId {
        BaseNeedsPlainName(diskId);
      } else {
        forall path
          ensures Base(path + "/" + diskId) == diskId
        {
          BaseOfPath(path, diskId);
        }
      }
      return Success("", diskId, false);
    }

    /** Reports whether the disk is in use by the node's instance. */
    method IsAttached(cfg: Config, inventory: Option<seq<Instance>>, diskId: string, node: string)
      returns (r: VolumeStatus)
      modifies `calls
      ensures r == NotSupported <==> !cfg.authorized
      ensures var name := if node == "localhost" then cfg.hostname else node;
        && (r.Success? <==>
            && cfg.authorized && inventory.Some? && Resolve(inventory.value, cfg.kind, name).Ok?
            && diskId != "" && diskId in disks && fate(old(calls)) == Delivered)
        && calls == old(calls) + (if cfg.authorized && inventory.Some? &&
             Resolve(inventory.value, cfg.kind, name).Ok? && diskId != "" then 1 else 0)
        && (r.Success? ==>
            (r.attached <==>
             disks[diskId].InUse? && disks[diskId].instance == Resolve(inventory.value, cfg.kind, name).value.id))
    {
      if !cfg.authorized {
        return NotSupported;
      }
      var name := if node == "localhost" then cfg.hostname else node;
      var instance := GetInstanceByNodeName(inventory, cfg.kind, name);
      if instance.Err? || diskId == "" {
        return Failure;
      }
      var disk := GetDiskById(diskId);
      if disk.None? {
        return Failure;
      }
      return Success("", "", InstanceOf(disk.value) == instance.value.id && disk.value.InUse?);
    }
  }

  /** Two nodes of the inventory that are on different instances. */
  predicate Apart(cfg: Config, inventory: Option<seq<Instance>>, node: string, other: string) {
    && inventory.Some?
    && var i, j := Resolve(inventory.value, cfg.kind, node), Resolve(inventory.value, cfg.kind, other);
       i.Ok? && j.Ok? && i.value.id != j.value.id
  }

  /** Attach, then ask about this node and another. */
  method AttachAndAsk(ecs: Ecs, cfg: Config, inventory: Option<seq<Instance>>, diskId: string, node: string,
                      other: string)
    returns (attached: VolumeStatus, here: VolumeStatus, elsewhere: VolumeStatus)
    requires forall k: nat :: ecs.fate(k) == Delivered
    requires cfg.authorized && node != "" && node != "localhost" && other != "localhost"
    modifies ecs
    ensures !attached.Success? ==> ecs.disks == old(ecs.disks)
    ensures attached.Success? ==>
      && inventory.Some? && diskId != "" && Resolve(inventory.value, cfg.kind, node).Ok?
      && here.Success? && here.attached
      && (Apart(cfg, inventory, node, other) ==> elsewhere.Success? && !elsewhere.attached)
      && diskId in old(ecs.disks) && Target(cfg, inventory, node).Some? && diskId in ecs.disks
      && ecs.disks == old(ecs.disks)[diskId := ecs.disks[diskId]]
      && IsAttachedTo(ecs.disks[diskId], Target(cfg, inventory, node).value)
      && attached == Success(ApiToLocal(ecs.disks[diskId].device), "", false)
  {
    here, elsewhere := Failure, Failure;
    ghost var n := Target(cfg, inventory, node);
    if n.Some? && diskId in ecs.disks {
      AttachAloneQuiet(n.value, ecs.disks[diskId], ecs.fate, ecs.device, ecs.calls);
    }
    attached := ecs.Attach(cfg, inventory, diskId, node);
    if !attached.Success? {
      return;
    }
    here := ecs.IsAttached(cfg, inventory, diskId, node);
    elsewhere := ecs.IsAttached(cfg, inventory, diskId, other);
  }

  /** Attaching a disk where it is costs one read, changes nothing and gives its device path. */
  method AttachAgain(ecs: Ecs, cfg: Config, inventory: Option<seq<Instance>>, diskId: string, node: string)
    returns (r: VolumeStatus)
    requires forall k: nat :: ecs.fate(k) == Delivered
    requires var n := Target(cfg, inventory, node);
      diskId != "" && n.Some? && diskId in ecs.disks && IsAttachedTo(ecs.disks[diskId], n.value)
    modifies ecs
    ensures ecs.disks == old(ecs.disks) && ecs.calls == old(ecs.calls) + 1
    ensures r == Success(ApiToLocal(ecs.disks[diskId].device), "", false)
  {
    AttachAloneQuiet(Target(cfg, inventory, node).value, ecs.disks[diskId], ecs.fate, ecs.device, ecs.calls);
    r := ecs.Attach(cfg, inventory, diskId, node);
  }

  /** Detach, given any name in which path.Base finds the disk, then ask. */
  method Release(ecs: Ecs, cfg: Config, inventory: Option<seq<Instance>>, deviceName: string, node: string)
    returns (detached: VolumeStatus, after: VolumeStatus)
    requires forall k: nat :: ecs.fate(k) == Delivered
    requires cfg.authorized && node != "" && node != "localhost"
    requires var n, diskId := Target(cfg, inventory, node), Base(deviceName);
      diskId != "" && n.Some? && diskId in ecs.disks && IsAttachedTo(ecs.disks[diskId], n.value)
    modifies ecs
    ensures var diskId := Base(deviceName); ecs.disks == old(ecs.disks)[diskId := Detached(old(ecs.disks)[diskId])]
    ensures detached.Success? && after.Success? && !after.attached
  {
    var diskId := Base(deviceName);
    DetachAloneQuiet(Target(cfg, inventory, node).value, ecs.disks[diskId], ecs.fate, ecs.calls);
    detached := ecs.Detach(cfg, inventory, deviceName, node);
    after := ecs.IsAttached(cfg, inventory, diskId, node);
  }

  /** The life of a volume, undisturbed and one call at a time. After a successful Attach, IsAttached holds
      for the node and for no node on another instance; attaching again costs one read, changes nothing and
      gives the same device path; Detach, given any name in which path.Base finds the disk, releases it.
      `settled` are the disks before the second Attach, and `cost` the calls it makes. */
  method LifeCycle(ecs: Ecs, cfg: Config, inventory: Option<seq<Instance>>, diskId: string, node: string,
                   other: string, deviceName: string)
    returns (attached: VolumeStatus, here: VolumeStatus, elsewhere: VolumeStatus, again: VolumeStatus,
             detached: VolumeStatus, after: VolumeStatus, ghost settled: map<string, DiskState>, ghost cost: int)
    requires forall k: nat :: ecs.fate(k) == Delivered
    requires cfg.authorized && node != "" && node != "localhost" && other != "localhost"
    requires Base(deviceName) == diskId
    modifies ecs
    ensures !attached.Success? ==> ecs.disks == old(ecs.disks)
    ensures attached.Success? ==>
      && here.Success? && here.attached
      && (Apart(cfg, inventory, node, other) ==> elsewhere.Success? && !elsewhere.attached)
      && again == attached && cost == 1
      && detached.Success? && after.Success? && !after.attached
      && diskId in old(ecs.disks) && diskId in settled && settled[diskId].InUse?
      && settled == old(ecs.disks)[diskId := settled[diskId]]
      && ecs.disks == old(ecs.disks)[diskId := Detached(settled[diskId])]
  {
    again, detached, after := Failure, Failure, Failure;
    attached, here, elsewhere := AttachAndAsk(ecs, cfg, inventory, diskId, node, other);
    settled, cost := ecs.disks, 0;
    if !attached.Success? {
      return;
    }
    ghost var calls := ecs.calls;
    again := AttachAgain(ecs, cfg, inventory, diskId, node);
    cost := ecs.calls - calls;
    detached, after := Release(ecs, cfg, inventory, deviceName, node);
  }
}
