/**
 * `get_external_disks`: keeps the physical disks that are neither on an
 * internal bus nor lacking a vendor marker in their plug-and-play id, and
 * lists each one's local fixed volumes. The WMI enumeration is an input
 * sequence: `Win32_DiskDrive` rows, each with the `Win32_DiskPartition`
 * rows associated with it and, per partition, the associated
 * `Win32_LogicalDisk` rows.
 */
module Inventory {
  import opened Wrappers
  import opened Text
  import opened Seqs

  /** A `Win32_LogicalDisk` row; `size` is `None` where WMI gives no size. */
  datatype LogicalDisk = LogicalDisk(
    deviceId: string, volumeName: Option<string>, fileSystem: Option<string>, driveType: int, size: Option<nat>)

  /** A `Win32_DiskPartition` row, through the logical disks associated with it. */
  datatype DiskPartition = DiskPartition(logicalDisks: seq<LogicalDisk>)

  /** A `Win32_DiskDrive` row; `interfaceType` is `None` where WMI gives none. */
  datatype DiskDrive = DiskDrive(
    interfaceType: Option<string>, pnpDeviceId: string, model: string, size: Option<nat>,
    deviceId: string, partitions: seq<DiskPartition>)

  /** One entry of a disk's "partitions" list. */
  datatype PartitionInfo = PartitionInfo(
    deviceId: string, volumeName: Option<string>, fileSystem: Option<string>, size: nat)

  /** One entry of the returned list. */
  datatype ExternalDisk = ExternalDisk(model: string, size: nat, partitions: seq<PartitionInfo>, deviceId: string)

  const InternalTypes: seq<string> := ["SATA", "IDE", "NVME"]

  /** `DriveType == 3`: a local fixed disk. */
  const LocalDisk := 3

  /** `int(x) if x else 0`. */
  function SizeOrZero(x: Option<nat>): nat {
    if x.Some? then x.value else 0
  }

  /** The interface type is present, non-empty and, upper-cased, one of SATA, IDE, NVME. */
  predicate OnInternalBus(d: DiskDrive) {
    d.interfaceType.Some? && d.interfaceType.value != "" && Upper(d.interfaceType.value) in InternalTypes
  }

  predicate HasVendorMarker(d: DiskDrive) {
    Contains(Upper(d.pnpDeviceId), "VEN") || Contains(Upper(d.pnpDeviceId), "VID")
  }

  predicate IsExternal(d: DiskDrive) {
    !OnInternalBus(d) && HasVendorMarker(d)
  }

  predicate IsLocalFixed(ld: LogicalDisk) {
    ld.driveType == LocalDisk
  }

  function PartitionInfoOf(ld: LogicalDisk): PartitionInfo {
    PartitionInfo(ld.deviceId, ld.volumeName, ld.fileSystem, SizeOrZero(ld.size))
  }

  /** The logical disks of a list of partitions, partition by partition. */
  function Volumes(ps: seq<DiskPartition>): seq<LogicalDisk>
    decreases |ps|
  {
    if ps == [] then [] else Volumes(ps[..|ps| - 1]) + ps[|ps| - 1].logicalDisks
  }

  lemma VolumesSnoc(ps: seq<DiskPartition>, i: nat)
    requires i < |ps|
    ensures Volumes(ps[..i + 1]) == Volumes(ps[..i]) + ps[i].logicalDisks
  {
    assert ps[..i + 1][..i] == ps[..i];
  }

  /** The "partitions" list of a kept disk: its local fixed volumes, in association order. */
  function KeptPartitions(d: DiskDrive): seq<PartitionInfo> {
    Map(PartitionInfoOf, Filter(IsLocalFixed, Volumes(d.partitions)))
  }

  function DiskInfo(d: DiskDrive): ExternalDisk {
    ExternalDisk(d.model, SizeOrZero(d.size), KeptPartitions(d), d.deviceId)
  }

  /** What `get_external_disks` returns for a successful enumeration. */
  function ExternalDisks(disks: seq<DiskDrive>): seq<ExternalDisk> {
    Map(DiskInfo, Filter(IsExternal, disks))
  }

  /** The inner two loops: the local fixed volumes behind the partitions of `d`. */
  method CollectPartitions(d: DiskDrive) returns (parts: seq<PartitionInfo>)
    ensures parts == KeptPartitions(d)
  {
    parts := [];
    var i := 0;
    while i < |d.partitions|
      invariant 0 <= i <= |d.partitions|
      invariant parts == Map(PartitionInfoOf, Filter(IsLocalFixed, Volumes(d.partitions[..i])))
    {
      var lds := d.partitions[i].logicalDisks;
      ghost var before := Volumes(d.partitions[..i]);
      VolumesSnoc(d.partitions, i);
      var j := 0;
      assert before + lds[..j] == before;
      while j < |lds|
        invariant 0 <= j <= |lds|
        invariant parts == Map(PartitionInfoOf, Filter(IsLocalFixed, before + lds[..j]))
      {
        assert before + lds[..j + 1] == (before + lds[..j]) + [lds[j]];
        FilterMapSnoc(IsLocalFixed, PartitionInfoOf, before + lds[..j], lds[j]);
        if lds[j].driveType == LocalDisk {
          parts := parts + [PartitionInfoOf(lds[j])];
        }
        j := j + 1;
      }
      assert lds[..j] == lds;
      i := i + 1;
    }
    assert d.partitions[..i] == d.partitions;
  }

  /**
   * `get_external_disks`; `wmi` is `None` when connecting to WMI fails,
   * in which case the list is empty.
   */
  method GetExternalDisks(wmi: Option<seq<DiskDrive>>) returns (external: seq<ExternalDisk>)
    ensures wmi.None? ==> external == []
    ensures wmi.Some? ==> external == ExternalDisks(wmi.value)
  {
    external := [];
    if wmi.None? {
      return;
    }
    var disks := wmi.value;
    var i := 0;
    while i < |disks|
      invariant 0 <= i <= |disks|
      invariant external == ExternalDisks(disks[..i])
    {
      var disk := disks[i];
      assert disks[..i + 1] == disks[..i] + [disk];
      FilterMapSnoc(IsExternal, DiskInfo, disks[..i], disk);
      var isInternal := false;
      if disk.interfaceType.Some? && disk.interfaceType.value != "" && Upper(disk.interfaceType.value) in InternalTypes {
        isInternal := true;
      }
      if isInternal {
        i := i + 1;
        continue;
      }
      if Contains(Upper(disk.pnpDeviceId), "VEN") || Contains(Upper(disk.pnpDeviceId), "VID") {
      } else {
        i := i + 1;
        continue;
      }
      var parts := CollectPartitions(disk);
      external := external + [ExternalDisk(disk.model, SizeOrZero(disk.size), parts, disk.deviceId)];
      i := i + 1;
    }
    assert disks[..i] == disks;
  }

  // ---------------------------------------------------------------------
  // What the returned list is.
  // ---------------------------------------------------------------------

  /**
   * Every returned entry describes an enumerated disk that is on no
   * internal bus and carries a vendor marker; the entries keep the
   * enumeration order; and every such disk is returned.
   */
  lemma ExternalDisksFromEnumeration(disks: seq<DiskDrive>)
    ensures var kept := Filter(IsExternal, disks);
      && ExternalDisks(disks) == Map(DiskInfo, kept)
      && IsSubsequence(kept, disks)
      && (forall k :: 0 <= k < |kept| ==> !OnInternalBus(kept[k]) && HasVendorMarker(kept[k]))
      && (forall i :: 0 <= i < |disks| && IsExternal(disks[i]) ==> disks[i] in kept)
  {
    FilterIsSubsequence(IsExternal, disks);
  }

  /** A disk whose interface type upper-cases to SATA, IDE or NVME is never kept. */
  lemma InternalBusExcluded(disks: seq<DiskDrive>, d: DiskDrive)
    requires d.interfaceType.Some? && Upper(d.interfaceType.value) in InternalTypes
    ensures d !in Filter(IsExternal, disks)
  {
    assert Upper("") == "";
    assert !IsExternal(d);
  }

  /** A disk whose upper-cased plug-and-play id contains neither VEN nor VID is never kept. */
  lemma NoVendorMarkerExcluded(disks: seq<DiskDrive>, d: DiskDrive)
    requires !Contains(Upper(d.pnpDeviceId), "VEN") && !Contains(Upper(d.pnpDeviceId), "VID")
    ensures d !in Filter(IsExternal, disks)
  {
    assert !IsExternal(d);
  }

  /** A missing or empty interface type does not drop a disk: its vendor marker decides. */
  lemma EmptyInterfaceTypeKept(d: DiskDrive)
    requires d.interfaceType == None || d.interfaceType == Some("")
    ensures IsExternal(d) <==> HasVendorMarker(d)
  {
  }

  /**
   * The "partitions" list holds exactly the local fixed volumes (DriveType
   * 3) among the disk's logical disks, in association order.
   */
  lemma KeptPartitionsAreLocalFixed(d: DiskDrive)
    ensures var vols := Filter(IsLocalFixed, Volumes(d.partitions));
      && KeptPartitions(d) == Map(PartitionInfoOf, vols)
      && IsSubsequence(vols, Volumes(d.partitions))
      && (forall k :: 0 <= k < |vols| ==> vols[k].driveType == LocalDisk)
      && (forall ld :: ld in Volumes(d.partitions) && ld.driveType == LocalDisk ==> ld in vols)
  {
    FilterIsSubsequence(IsLocalFixed, Volumes(d.partitions));
    var all := Volumes(d.partitions);
    forall ld | ld in all && ld.driveType == LocalDisk
      ensures ld in Filter(IsLocalFixed, all)
    {
      var i :| 0 <= i < |all| && all[i] == ld;
    }
  }

  /** A USB stick reporting interface "USB" and a vendor id is listed. */
  lemma UsbStickKept()
    ensures IsExternal(DiskDrive(Some("USB"), "USBSTOR\\DISK&VEN_KINGSTON", "Kingston DataTraveler",
                                 Some(32000000000), "\\\\.\\PHYSICALDRIVE1", []))
  {
    var pnp := "USBSTOR\\DISK&VEN_KINGSTON";
    assert Upper("USB") == "USB";
    NoLowerUpper(pnp);
    assert HasPrefix(pnp[13..], "VEN");
    ContainsSuffix(pnp, 13, "VEN");
  }

  /** An NVMe drive is dropped, whatever its id says and however its bus name is cased. */
  lemma NvmeDropped()
    ensures !IsExternal(DiskDrive(Some("nvme"), "SCSI\\DISK&VEN_NVME&PROD_SAMSUNG", "Samsung 980",
                                  Some(1000000000000), "\\\\.\\PHYSICALDRIVE0", []))
  {
    assert Upper("nvme") == "NVME";
  }

  /** A disk with no interface type and no vendor marker is dropped. */
  lemma StorageSpaceDropped()
    ensures !IsExternal(DiskDrive(None, "ROOT\\SPACEPORT\\0000", "Storage Space",
                                  None, "\\\\.\\PHYSICALDRIVE2", []))
  {
    var pnp := "ROOT\\SPACEPORT\\0000";
    NoLowerUpper(pnp);
    assert forall i :: 0 <= i < |pnp| ==> pnp[i] != 'V';
    NoVNoMarker(pnp);
  }

  lemma NoLowerUpper(s: string)
    requires forall i :: 0 <= i < |s| ==> !('a' <= s[i] <= 'z')
    ensures Upper(s) == s
  {
  }

  lemma {:induction false} ContainsSuffix(s: string, k: nat, sub: string)
    requires k <= |s| && Contains(s[k..], sub)
    ensures Contains(s, sub)
    decreases k
  {
    if k > 0 {
      assert s[k - 1..][1..] == s[k..];
      ContainsSuffix(s, k - 1, sub);
    }
  }

  /** A text without `V` contains neither marker. */
  lemma {:induction false} NoVNoMarker(s: string)
    requires 'V' !in s
    ensures !Contains(s, "VEN") && !Contains(s, "VID")
    decreases |s|
  {
    if s != [] {
      assert s[0] != 'V';
      NoVNoMarker(s[1..]);
    }
  }
}
