/** lib/device.go, `ScsiDevices`: one Device per listed `scsi_device`
    entry whose `device` link resolves, filled in step by step; devices of
    an unknown type are dropped again; the rest are bucketed by serial
    number and by SAS address, enclosures are collected, and the buckets are
    merged into MultiPath units. */
module Discovery {
  import opened Base
  import opened Sysfs
  import opened Vpd
  import opened Hba
  import opened Topology
  import opened Merge

  /** What the code reaches from one resolved `device` link: its sysfs
      path, its sysfs node, its `vpd_pg80` file, the HBA host directory
      seven levels up, the end device two levels up, and the
      `enclosure_device:*` entries the glob lists. */
  datatype DeviceSys = DeviceSys(path: string, node: Node, page: Pg80File, host: Node, endDevice: Node,
                                 enclosureFiles: seq<string>)

  /** One `scsi_device` entry: its name and, when `SubObject("device")`
      succeeds, what lies behind it. */
  datatype DeviceEntry = DeviceEntry(name: string, sys: Option<DeviceSys>)

  predicate Known(devType: int)
  {
    devType == DiskType || devType == EnclosureType
  }

  /** The type a new device ends up with: the `type` attribute, read only
      once model, vendor and rev have been read; -1 otherwise. */
  function SysType(s: DeviceSys): int
  {
    if AttrsReadable(s.node) && ReadInt(s.node, "type").Some? then ReadInt(s.node, "type").value else UnreadType
  }

  function SysModel(s: DeviceSys): string
  {
    if Read(s.node, "model").Some? then Read(s.node, "model").value else ""
  }

  function SysSas(s: DeviceSys): string
  {
    if AttrsReadable(s.node) then GetOr(s.node.attrs, "sas_address", "") else ""
  }

  /** The serial number a new device ends up with: page 0x80 for disks and
      for enclosures other than the SA4600, when the page can be read. */
  function SysSerial(s: DeviceSys): string
  {
    var t := SysType(s);
    if (t == DiskType || (t == EnclosureType && SysModel(s) != NoPg80Model)) && s.page.Pg80?
    then Pg80Serial(s.page.data)
    else ""
  }

  /** The vendor a new device ends up with: read only once the model has
      been read. */
  function SysVendor(s: DeviceSys): string
  {
    if Read(s.node, "model").Some? && Read(s.node, "vendor").Some? then Read(s.node, "vendor").value else ""
  }

  /** The revision a new device ends up with: read only once model and
      vendor have been read. */
  function SysRev(s: DeviceSys): string
  {
    if AttrsReadable(s.node) then Read(s.node, "rev").value else ""
  }

  /** The block device name: the first entry of `block`, looked at only
      once the type has been read. */
  function SysBlock(s: DeviceSys): string
  {
    if AttrsReadable(s.node) && ReadInt(s.node, "type").Some? then FirstEntryName(s.node, "block", "") else ""
  }

  /** The sg device name: the first entry of `scsi_generic`, looked at
      only once the type has been read. */
  function SysSg(s: DeviceSys): string
  {
    if AttrsReadable(s.node) && ReadInt(s.node, "type").Some? then FirstEntryName(s.node, "scsi_generic", "") else ""
  }

  /** The slot a new device ends up with: only disks look for one. */
  function SysSlot(s: DeviceSys): int
  {
    if SysType(s) == DiskType then EnclSlot(s.endDevice, s.enclosureFiles, 0) else 0
  }

  /** The fields of a device made from `s`, once `ScsiDevices` has filled
      it in, apart from its HBA, port and MultiPath unit. */
  predicate Made(d: Device, s: DeviceSys)
    reads d`devType, d`model, d`vendor, d`rev, d`sasAddress, d`serial, d`block, d`sg, d`slot
  {
    && d.path == s.path && d.devType == SysType(s) && d.model == SysModel(s) && d.vendor == SysVendor(s)
    && d.rev == SysRev(s) && d.sasAddress == SysSas(s) && d.serial == SysSerial(s)
    && d.block == SysBlock(s) && d.sg == SysSg(s) && d.slot == SysSlot(s)
  }

  /** A located device's HBA and port: for a path of at least eight
      elements, the HBA table's entry for element 5, and element 7; none
      for a shorter path. */
  predicate OnHba(d: Device, hbas: map<string, Hba>)
    reads d`hba, d`port
  {
    var p := PathElements(d.path);
    if |p| >= 8 then p[5] in hbas && d.hba == Some(hbas[p[5]]) && d.port == p[7]
    else d.hba == None && d.port == ""
  }

  /** The HBA `updatePathVars` builds for a device path of at least eight
      elements: bus id, host, configured label, and the host's ports. */
  function PathHba(path: string, host: Node, conf: Conf): (h: Option<Hba>)
    ensures h.Some? <==> |PathElements(path)| >= 8
    ensures h.Some? ==> h.value.pciId == PathElements(path)[5] && h.value.slot == GetOr(conf.hbaLabels, h.value.pciId, "")
  {
    var p := PathElements(path);
    if |p| >= 8 then Some(Hba(p[5], p[6], GetOr(conf.hbaLabels, p[5], ""), HostPorts(host))) else None
  }

  /** The HBA a resolved entry offers the table: only devices of known
      type reach `updatePathVars`. */
  function SysHba(s: DeviceSys, conf: Conf): Option<Hba>
  {
    if KnownSys(s) then PathHba(s.path, s.host, conf) else None
  }

  /** The get-or-insert of `updatePathVars`: an HBA is added under its bus
      id unless that id is already present. */
  function AddHba(hbas: map<string, Hba>, h: Option<Hba>): (r: map<string, Hba>)
    ensures forall k :: k in hbas ==> k in r && r[k] == hbas[k]
    ensures forall k :: k in r <==> k in hbas || (h.Some? && k == h.value.pciId)
    ensures h.Some? && h.value.pciId !in hbas ==> r[h.value.pciId] == h.value
  {
    if h.Some? && h.value.pciId !in hbas then hbas[h.value.pciId := h.value] else hbas
  }

  /** The HBA table `ScsiDevices` ends with: each entry of known type with
      a long enough path offers its HBA, and the first offer for a bus id
      is kept. */
  function HbaTable(entries: seq<DeviceEntry>, conf: Conf): (t: map<string, Hba>)
    ensures HbaTableKeyed(t)
    decreases |entries|
  {
    if entries == [] then map[]
    else
      var before := HbaTable(entries[..|entries| - 1], conf);
      match entries[|entries| - 1].sys
      case None => before
      case Some(s) =>
        assert SysHba(s, conf).Some? ==> SysHba(s, conf).value.pciId == PathElements(s.path)[5];
        AddHba(before, SysHba(s, conf))
  }

  /** Entry `e` offers an HBA with bus id `k`. */
  predicate Offers(e: DeviceEntry, conf: Conf, k: string)
  {
    e.sys.Some? && SysHba(e.sys.value, conf).Some? && SysHba(e.sys.value, conf).value.pciId == k
  }

  lemma HbaTableStep(entries: seq<DeviceEntry>, i: nat, conf: Conf)
    requires i < |entries|
    ensures HbaTable(entries[..i + 1], conf) ==
      match entries[i].sys
      case None => HbaTable(entries[..i], conf)
      case Some(s) => AddHba(HbaTable(entries[..i], conf), SysHba(s, conf))
  {
    assert entries[..i + 1][..i] == entries[..i];
  }

  /** A bus id is in the HBA table exactly when some entry offers it, and
      its HBA is the one the first such entry offers. */
  lemma {:induction false} HbaTableFirst(entries: seq<DeviceEntry>, conf: Conf, k: string)
    ensures k in HbaTable(entries, conf) <==> exists j :: 0 <= j < |entries| && Offers(entries[j], conf, k)
    ensures k in HbaTable(entries, conf) ==>
      exists j :: 0 <= j < |entries| && Offers(entries[j], conf, k)
        && SysHba(entries[j].sys.value, conf).value == HbaTable(entries, conf)[k]
        && forall i :: 0 <= i < j ==> !Offers(entries[i], conf, k)
    decreases |entries|
  {
    if entries != [] {
      var n := |entries| - 1;
      var earlier := entries[..n];
      HbaTableFirst(earlier, conf, k);
      assert forall i :: 0 <= i < n ==> earlier[i] == entries[i];
      var t, t0 := HbaTable(entries, conf), HbaTable(earlier, conf);
      if k in t0 {
        var j :| 0 <= j < n && Offers(earlier[j], conf, k)
          && SysHba(earlier[j].sys.value, conf).value == t0[k]
          && forall i :: 0 <= i < j ==> !Offers(earlier[i], conf, k);
        assert t[k] == t0[k];
        assert Offers(entries[j], conf, k);
      } else if k in t {
        assert Offers(entries[n], conf, k);
        assert forall i :: 0 <= i < n ==> !Offers(entries[i], conf, k) by {
          forall i | 0 <= i < n ensures !Offers(entries[i], conf, k) {
            assert !Offers(earlier[i], conf, k);
          }
        }
      } else {
        forall i | 0 <= i < |entries| ensures !Offers(entries[i], conf, k) {
          if i < n {
            assert !Offers(earlier[i], conf, k);
          }
        }
      }
    }
  }

  /** The device table `ScsiDevices` ends with, by name: the last resolved
      entry of each name survives when its type is known, and removes the
      name when it is not. */
  function Survivors(entries: seq<DeviceEntry>): (r: map<string, DeviceSys>)
    ensures forall k :: k in r ==> Known(SysType(r[k]))
    ensures forall k :: k in r ==> exists i :: 0 <= i < |entries| && entries[i].name == k && entries[i].sys == Some(r[k])
    decreases |entries|
  {
    if entries == [] then map[]
    else
      var earlier := entries[..|entries| - 1];
      var before := Survivors(earlier);
      var e := entries[|entries| - 1];
      assert forall i :: 0 <= i < |earlier| ==> earlier[i] == entries[i];
      match e.sys
      case None => before
      case Some(s) => if Known(SysType(s)) then before[e.name := s] else before - {e.name}
  }

  predicate NamesUnique(entries: seq<DeviceEntry>)
  {
    forall i, j :: 0 <= i < j < |entries| ==> entries[i].name != entries[j].name
  }

  lemma SurvivorsStep(entries: seq<DeviceEntry>, i: nat)
    requires i < |entries|
    ensures Survivors(entries[..i + 1]) ==
      match entries[i].sys
      case None => Survivors(entries[..i])
      case Some(s) =>
        if Known(SysType(s)) then Survivors(entries[..i])[entries[i].name := s]
        else Survivors(entries[..i]) - {entries[i].name}
  {
    assert entries[..i + 1][..i] == entries[..i];
  }

  /** With unique names, a name survives exactly when its entry resolves
      and has a known type, and then with that entry's sysfs view. */
  lemma {:induction false} SurvivorsOfUniqueNames(entries: seq<DeviceEntry>, i: nat)
    requires NamesUnique(entries) && i < |entries|
    ensures entries[i].name in Survivors(entries) <==> entries[i].sys.Some? && Known(SysType(entries[i].sys.value))
    ensures entries[i].name in Survivors(entries) ==> Survivors(entries)[entries[i].name] == entries[i].sys.value
    decreases |entries|
  {
    var n := |entries| - 1;
    var earlier := entries[..n];
    SurvivorsStep(entries, n);
    assert entries[..n + 1] == entries;
    if i < n {
      assert NamesUnique(earlier) by {
        forall a, b | 0 <= a < b < |earlier| ensures earlier[a].name != earlier[b].name {
          assert earlier[a] == entries[a] && earlier[b] == entries[b];
        }
      }
      assert earlier[i] == entries[i];
      SurvivorsOfUniqueNames(earlier, i);
      assert entries[n].name != entries[i].name;
    } else {
      assert forall j :: 0 <= j < |earlier| ==> earlier[j].name != entries[i].name;
    }
  }

  /** A bucket: add `d` under `key`, creating the bucket on first use; the
      empty key is not bucketed. */
  function AddTo(b: Buckets, key: string, d: Device): (r: Buckets)
    ensures forall k :: k in r <==> k in b || (key != "" && k == key)
    ensures key != "" ==> r[key] == GetOr(b, key, {}) + {d}
    ensures forall k :: k in b && k != key ==> r[k] == b[k]
    ensures key == "" ==> r == b
  {
    if key == "" then b else b[key := GetOr(b, key, {}) + {d}]
  }

  /** The first steps for a resolved entry: a new Device with its
      attributes and serial number; `unknown` when `updateSerial` reports
      an unknown type. */
  method Describe(name: string, s: DeviceSys) returns (d: Device, unknown: bool)
    requires NamedEntryListed(s.node)
    ensures fresh(d) && d.id == name && d.path == s.path
    ensures unknown <==> !Known(SysType(s))
    ensures d.devType == SysType(s) && d.model == SysModel(s) && d.vendor == SysVendor(s) && d.rev == SysRev(s)
    ensures d.sasAddress == SysSas(s) && d.serial == SysSerial(s) && d.block == SysBlock(s) && d.sg == SysSg(s)
    ensures d.hba == None && d.port == "" && d.slot == 0 && d.multiPath == null && d.enclosure == null
  {
    d := new Device(name, s.path);
    var err := d.UpdateSysfsAttrs(s.node);
    err := d.UpdateSerial(s.page);
    unknown := err == Some(UnknownType);
  }

  /** The HBA, port and, for a disk, slot steps for a device of known type;
      their errors are only logged. */
  method Locate(d: Device, s: DeviceSys, hbas: map<string, Hba>, conf: Conf) returns (hbas': map<string, Hba>)
    modifies d`hba, d`port, d`slot
    ensures hbas' == AddHba(hbas, PathHba(d.path, s.host, conf))
    ensures |PathElements(d.path)| >= 8 ==> OnHba(d, hbas')
    ensures |PathElements(d.path)| < 8 ==> d.hba == old(d.hba) && d.port == old(d.port)
    ensures d.slot == if d.devType == DiskType then EnclSlot(s.endDevice, s.enclosureFiles, old(d.slot)) else old(d.slot)
  {
    var err;
    hbas', err := d.UpdatePathVars(hbas, conf, s.host);
    if d.devType == DiskType {
      err := d.UpdateEnclSlot(s.endDevice, s.enclosureFiles);
    }
  }

  /** One `scsi_device` entry whose `device` link resolved: the new Device
      has its attributes, serial number, HBA and port and, for a disk, its
      slot filled in. A device of unknown type is returned before the HBA
      step, for the caller to drop. */
  method Discover(name: string, s: DeviceSys, hbas: map<string, Hba>, conf: Conf)
    returns (d: Device, hbas': map<string, Hba>, unknown: bool)
    requires NamedEntryListed(s.node)
    ensures fresh(d) && d.id == name && d.path == s.path
    ensures unknown <==> !Known(SysType(s))
    ensures Made(d, s) && d.multiPath == null && d.enclosure == null
    ensures if unknown then d.hba == None && d.port == "" else OnHba(d, hbas')
    ensures hbas' == AddHba(hbas, SysHba(s, conf))
  {
    d, unknown := Describe(name, s);
    if unknown {
      return d, hbas, true;
    }
    hbas' := Locate(d, s, hbas, conf);
  }

  // ---------------------------------------------------------------- the loop's invariant

  /** The device table holds the survivors so far, each a device made from
      the survivor's sysfs view and named after its entry. */
  ghost predicate Tracked(devices: map<string, Device>, surv: map<string, DeviceSys>, sysOf: map<Device, DeviceSys>)
  {
    forall k :: (k in devices <==> k in surv)
      && (k in devices ==> devices[k] in sysOf && sysOf[devices[k]] == surv[k] && devices[k].id == k)
  }

  /** Every device in bucket `b` was made from a sysfs view that `ok`
      accepts and whose `key` is the bucket's non-empty key. */
  ghost predicate Keyed(b: Buckets, sysOf: map<Device, DeviceSys>, key: DeviceSys -> string, ok: DeviceSys -> bool)
  {
    && (forall k :: k in b ==> k != "")
    && (forall k, d :: k in b && d in b[k] ==> d in sysOf && key(sysOf[d]) == k && ok(sysOf[d]))
  }

  predicate KnownSys(s: DeviceSys)
  {
    Known(SysType(s))
  }

  /** Every bucketed device carries the bucket's non-empty key and a known
      type. */
  ghost predicate BucketsSound(bySerial: Buckets, bySas: Buckets, sysOf: map<Device, DeviceSys>)
  {
    Keyed(bySerial, sysOf, SysSerial, KnownSys) && Keyed(bySas, sysOf, SysSas, KnownSys)
  }

  /** Every device of the table with a non-empty serial (SAS address) is in
      the bucket of that value. */
  ghost predicate BucketsCover(devices: map<string, Device>, surv: map<string, DeviceSys>, bySerial: Buckets, bySas: Buckets)
  {
    && (forall k :: k in devices && k in surv && SysSerial(surv[k]) != "" ==>
         SysSerial(surv[k]) in bySerial && devices[k] in bySerial[SysSerial(surv[k])])
    && (forall k :: k in devices && k in surv && SysSas(surv[k]) != "" ==>
         SysSas(surv[k]) in bySas && devices[k] in bySas[SysSas(surv[k])])
  }

  /** The enclosure set holds enclosures only, and every enclosure of the
      table. */
  ghost predicate EnclosuresFound(devices: map<string, Device>, surv: map<string, DeviceSys>, enclMap: set<Device>,
                                  sysOf: map<Device, DeviceSys>)
  {
    && (forall d :: d in enclMap ==> d in sysOf && SysType(sysOf[d]) == EnclosureType)
    && (forall k :: k in devices && k in surv && SysType(surv[k]) == EnclosureType ==> devices[k] in enclMap)
  }

  /** With unique names every device of known type made so far is still in
      the table, under the name it was made with. */
  ghost predicate Resident(unique: bool, devices: map<string, Device>, sysOf: map<Device, DeviceSys>,
                           nameOf: map<Device, string>)
  {
    unique ==> forall d :: d in sysOf && Known(SysType(sysOf[d])) ==>
      d in nameOf && nameOf[d] in devices && devices[nameOf[d]] == d
  }

  /** Every name that survived so far is the name of an earlier entry. */
  ghost predicate NamesSeen(entries: seq<DeviceEntry>, i: nat, surv: map<string, DeviceSys>)
    requires i <= |entries|
  {
    forall k :: k in surv ==> exists j :: 0 <= j < i && entries[j].name == k
  }

  /** The state of the `ScsiDevices` loop after the first `i` entries. */
  ghost predicate LoopInv(entries: seq<DeviceEntry>, i: nat, devices: map<string, Device>, bySerial: Buckets,
                          bySas: Buckets, enclMap: set<Device>, sysOf: map<Device, DeviceSys>,
                          nameOf: map<Device, string>)
    requires i <= |entries|
  {
    var surv := Survivors(entries[..i]);
    && Tracked(devices, surv, sysOf)
    && BucketsSound(bySerial, bySas, sysOf)
    && BucketsCover(devices, surv, bySerial, bySas)
    && EnclosuresFound(devices, surv, enclMap, sysOf)
    && Resident(NamesUnique(entries[..i]), devices, sysOf, nameOf)
    && NamesSeen(entries, i, surv)
  }

  /** An entry whose `device` link does not resolve changes nothing. */
  lemma SkipKeepsInv(entries: seq<DeviceEntry>, i: nat, devices: map<string, Device>, bySerial: Buckets,
                     bySas: Buckets, enclMap: set<Device>, sysOf: map<Device, DeviceSys>, nameOf: map<Device, string>)
    requires i < |entries| && entries[i].sys.None?
    requires LoopInv(entries, i, devices, bySerial, bySas, enclMap, sysOf, nameOf)
    ensures LoopInv(entries, i + 1, devices, bySerial, bySas, enclMap, sysOf, nameOf)
  {
    SurvivorsStep(entries, i);
    assert entries[..i + 1][..i] == entries[..i];
  }

  /** With unique names, the name of entry `i` is not yet in the table. */
  lemma FreshName(entries: seq<DeviceEntry>, i: nat, devices: map<string, Device>, bySerial: Buckets,
                  bySas: Buckets, enclMap: set<Device>, sysOf: map<Device, DeviceSys>, nameOf: map<Device, string>)
    requires i < |entries| && NamesUnique(entries[..i + 1])
    requires LoopInv(entries, i, devices, bySerial, bySas, enclMap, sysOf, nameOf)
    ensures entries[i].name !in devices
    ensures NamesUnique(entries[..i])
  {
    assert forall a :: 0 <= a <= i ==> entries[..i + 1][a] == entries[a];
    assert forall a :: 0 <= a < i ==> entries[..i][a] == entries[..i + 1][a];
  }

  /** Recording a new device leaves every bucket as sound as it was. */
  lemma KeyedExtend(b: Buckets, sysOf: map<Device, DeviceSys>, key: DeviceSys -> string, ok: DeviceSys -> bool,
                    d: Device, s: DeviceSys)
    requires Keyed(b, sysOf, key, ok) && d !in sysOf
    ensures Keyed(b, sysOf[d := s], key, ok)
  {
    var sysOf' := sysOf[d := s];
    forall k, x | k in b && x in b[k] ensures x in sysOf' && key(sysOf'[x]) == k && ok(sysOf'[x]) {
      assert x in sysOf && x != d;
    }
  }

  /** Filing a new device under its own key keeps a bucket sound. */
  lemma KeyedAdd(b: Buckets, sysOf: map<Device, DeviceSys>, key: DeviceSys -> string, ok: DeviceSys -> bool,
                 d: Device, s: DeviceSys)
    requires Keyed(b, sysOf, key, ok) && d !in sysOf && ok(s)
    ensures Keyed(AddTo(b, key(s), d), sysOf[d := s], key, ok)
  {
    KeyedExtend(b, sysOf, key, ok, d, s);
    var sysOf', b' := sysOf[d := s], AddTo(b, key(s), d);
    forall k, x | k in b' && x in b'[k] ensures x in sysOf' && key(sysOf'[x]) == k && ok(sysOf'[x]) {
      if x != d {
        assert k in b && x in b[k];
      }
    }
  }

  lemma SoundExtend(bySerial: Buckets, bySas: Buckets, sysOf: map<Device, DeviceSys>, d: Device, s: DeviceSys)
    requires BucketsSound(bySerial, bySas, sysOf) && d !in sysOf
    ensures BucketsSound(bySerial, bySas, sysOf[d := s])
  {
    KeyedExtend(bySerial, sysOf, SysSerial, KnownSys, d, s);
    KeyedExtend(bySas, sysOf, SysSas, KnownSys, d, s);
  }

  lemma DropTracked(devices: map<string, Device>, surv: map<string, DeviceSys>, sysOf: map<Device, DeviceSys>,
                    n: string, s: DeviceSys, d: Device)
    requires Tracked(devices, surv, sysOf) && d !in sysOf
    ensures Tracked(devices - {n}, surv - {n}, sysOf[d := s])
  {
    var devices', sysOf' := devices - {n}, sysOf[d := s];
    forall k | k in devices' ensures devices'[k] in sysOf' && sysOf'[devices'[k]] == surv[k] {
      assert devices[k] in sysOf;
    }
  }

  lemma DropEnclosures(devices: map<string, Device>, surv: map<string, DeviceSys>, enclMap: set<Device>,
                       sysOf: map<Device, DeviceSys>, n: string, s: DeviceSys, d: Device)
    requires EnclosuresFound(devices, surv, enclMap, sysOf) && d !in sysOf
    ensures EnclosuresFound(devices - {n}, surv - {n}, enclMap, sysOf[d := s])
  {
    forall x | x in enclMap ensures x in sysOf[d := s] && SysType(sysOf[d := s][x]) == EnclosureType {
      assert x in sysOf;
    }
  }

  lemma DropCover(devices: map<string, Device>, surv: map<string, DeviceSys>, bySerial: Buckets, bySas: Buckets,
                  n: string)
    requires BucketsCover(devices, surv, bySerial, bySas)
    ensures BucketsCover(devices - {n}, surv - {n}, bySerial, bySas)
  {
  }

  lemma DropResident(devices: map<string, Device>, sysOf: map<Device, DeviceSys>, nameOf: map<Device, string>,
                     n: string, s: DeviceSys, d: Device)
    requires Resident(true, devices, sysOf, nameOf) && d !in sysOf && n !in devices && !Known(SysType(s))
    ensures Resident(true, devices - {n}, sysOf[d := s], nameOf[d := n])
  {
    var devices', sysOf', nameOf' := devices - {n}, sysOf[d := s], nameOf[d := n];
    forall x | x in sysOf' && Known(SysType(sysOf'[x]))
      ensures x in nameOf' && nameOf'[x] in devices' && devices'[nameOf'[x]] == x
    {
      assert x != d && nameOf[x] in devices;
    }
  }

  /** A device of unknown type is made and dropped again: its name leaves
      the table, and nothing is bucketed. */
  lemma DropKeepsInv(entries: seq<DeviceEntry>, i: nat, devices: map<string, Device>, bySerial: Buckets,
                     bySas: Buckets, enclMap: set<Device>, sysOf: map<Device, DeviceSys>, nameOf: map<Device, string>,
                     d: Device)
    requires i < |entries| && entries[i].sys.Some? && !Known(SysType(entries[i].sys.value))
    requires LoopInv(entries, i, devices, bySerial, bySas, enclMap, sysOf, nameOf) && d !in sysOf
    ensures LoopInv(entries, i + 1, devices - {entries[i].name}, bySerial, bySas, enclMap,
                    sysOf[d := entries[i].sys.value], nameOf[d := entries[i].name])
  {
    SurvivorsStep(entries, i);
    var n, s := entries[i].name, entries[i].sys.value;
    var surv := Survivors(entries[..i]);
    assert Survivors(entries[..i + 1]) == surv - {n};
    DropTracked(devices, surv, sysOf, n, s, d);
    SoundExtend(bySerial, bySas, sysOf, d, s);
    DropCover(devices, surv, bySerial, bySas, n);
    DropEnclosures(devices, surv, enclMap, sysOf, n, s, d);
    if NamesUnique(entries[..i + 1]) {
      FreshName(entries, i, devices, bySerial, bySas, enclMap, sysOf, nameOf);
      DropResident(devices, sysOf, nameOf, n, s, d);
    }
    forall k | k in surv - {n} ensures exists j :: 0 <= j < i + 1 && entries[j].name == k {
      var j :| 0 <= j < i && entries[j].name == k;
    }
  }

  /** Entering a name and deleting it again leaves the table without it. */
  lemma SetThenDelete(devices: map<string, Device>, n: string, d: Device)
    ensures devices[n := d] - {n} == devices - {n}
  {
    assert forall k :: k in devices[n := d] - {n} <==> k in devices - {n};
  }

  lemma KeepTracked(devices: map<string, Device>, surv: map<string, DeviceSys>, sysOf: map<Device, DeviceSys>,
                    n: string, s: DeviceSys, d: Device)
    requires Tracked(devices, surv, sysOf) && d !in sysOf && d.id == n
    ensures Tracked(devices[n := d], surv[n := s], sysOf[d := s])
  {
    forall k | k in devices && k != n ensures devices[k] != d {
      assert devices[k] in sysOf;
    }
  }

  lemma KeepSound(bySerial: Buckets, bySas: Buckets, sysOf: map<Device, DeviceSys>, s: DeviceSys, d: Device)
    requires BucketsSound(bySerial, bySas, sysOf) && d !in sysOf && Known(SysType(s))
    ensures BucketsSound(AddTo(bySerial, SysSerial(s), d), AddTo(bySas, SysSas(s), d), sysOf[d := s])
  {
    KeyedAdd(bySerial, sysOf, SysSerial, KnownSys, d, s);
    KeyedAdd(bySas, sysOf, SysSas, KnownSys, d, s);
  }

  lemma KeepCover(devices: map<string, Device>, surv: map<string, DeviceSys>, bySerial: Buckets, bySas: Buckets,
                  n: string, s: DeviceSys, d: Device)
    requires BucketsCover(devices, surv, bySerial, bySas)
    ensures BucketsCover(devices[n := d], surv[n := s], AddTo(bySerial, SysSerial(s), d), AddTo(bySas, SysSas(s), d))
  {
    var devices', surv' := devices[n := d], surv[n := s];
    var bySerial', bySas' := AddTo(bySerial, SysSerial(s), d), AddTo(bySas, SysSas(s), d);
    forall k | k in devices' && k in surv' && SysSerial(surv'[k]) != ""
      ensures SysSerial(surv'[k]) in bySerial' && devices'[k] in bySerial'[SysSerial(surv'[k])]
    {
      if k != n && SysSerial(surv[k]) != SysSerial(s) {
        assert bySerial'[SysSerial(surv[k])] == bySerial[SysSerial(surv[k])];
      }
    }
    forall k | k in devices' && k in surv' && SysSas(surv'[k]) != ""
      ensures SysSas(surv'[k]) in bySas' && devices'[k] in bySas'[SysSas(surv'[k])]
    {
      if k != n && SysSas(surv[k]) != SysSas(s) {
        assert bySas'[SysSas(surv[k])] == bySas[SysSas(surv[k])];
      }
    }
  }

  lemma KeepEnclosures(devices: map<string, Device>, surv: map<string, DeviceSys>, enclMap: set<Device>,
                       sysOf: map<Device, DeviceSys>, n: string, s: DeviceSys, d: Device)
    requires EnclosuresFound(devices, surv, enclMap, sysOf) && d !in sysOf
    ensures EnclosuresFound(devices[n := d], surv[n := s], if SysType(s) == EnclosureType then enclMap + {d} else enclMap,
                            sysOf[d := s])
  {
    forall x | x in enclMap ensures x != d {
      assert x in sysOf;
    }
  }

  lemma KeepResident(devices: map<string, Device>, sysOf: map<Device, DeviceSys>, nameOf: map<Device, string>,
                     n: string, s: DeviceSys, d: Device)
    requires Resident(true, devices, sysOf, nameOf) && d !in sysOf && n !in devices
    ensures Resident(true, devices[n := d], sysOf[d := s], nameOf[d := n])
  {
    var devices', sysOf', nameOf' := devices[n := d], sysOf[d := s], nameOf[d := n];
    forall x | x in sysOf' && Known(SysType(sysOf'[x]))
      ensures x in nameOf' && nameOf'[x] in devices' && devices'[nameOf'[x]] == x
    {
      if x != d {
        assert nameOf[x] in devices;
      }
    }
  }

  /** A device of known type is entered in the table under its name, in
      the buckets of its non-empty serial and SAS address, and, when it is
      an enclosure, in the enclosure set. */
  lemma KeepKeepsInv(entries: seq<DeviceEntry>, i: nat, devices: map<string, Device>, bySerial: Buckets,
                     bySas: Buckets, enclMap: set<Device>, sysOf: map<Device, DeviceSys>, nameOf: map<Device, string>,
                     d: Device)
    requires i < |entries| && entries[i].sys.Some? && Known(SysType(entries[i].sys.value))
    requires LoopInv(entries, i, devices, bySerial, bySas, enclMap, sysOf, nameOf) && d !in sysOf
    requires d.id == entries[i].name
    ensures var s := entries[i].sys.value;
      LoopInv(entries, i + 1, devices[entries[i].name := d], AddTo(bySerial, SysSerial(s), d),
              AddTo(bySas, SysSas(s), d), if SysType(s) == EnclosureType then enclMap + {d} else enclMap,
              sysOf[d := s], nameOf[d := entries[i].name])
  {
    SurvivorsStep(entries, i);
    var n, s := entries[i].name, entries[i].sys.value;
    var surv := Survivors(entries[..i]);
    assert Survivors(entries[..i + 1]) == surv[n := s];
    KeepTracked(devices, surv, sysOf, n, s, d);
    KeepSound(bySerial, bySas, sysOf, s, d);
    KeepCover(devices, surv, bySerial, bySas, n, s, d);
    KeepEnclosures(devices, surv, enclMap, sysOf, n, s, d);
    if NamesUnique(entries[..i + 1]) {
      FreshName(entries, i, devices, bySerial, bySas, enclMap, sysOf, nameOf);
      KeepResident(devices, sysOf, nameOf, n, s, d);
    }
    var surv' := surv[n := s];
    forall k | k in surv' ensures exists j :: 0 <= j < i + 1 && entries[j].name == k {
      if k != n {
        var j :| 0 <= j < i && entries[j].name == k;
      }
    }
  }

  /** Each device made so far has the path, type, serial and SAS address
      of the sysfs view it was made from. */
  ghost predicate Linked(sysOf: map<Device, DeviceSys>)
    reads sysOf.Keys`devType, sysOf.Keys`serial, sysOf.Keys`sasAddress
  {
    forall d :: d in sysOf ==>
      d.path == sysOf[d].path && d.devType == SysType(sysOf[d]) && d.serial == SysSerial(sysOf[d]) && d.sasAddress == SysSas(sysOf[d])
  }

  /** Each device made so far has the remaining attributes and the slot of
      the sysfs view it was made from. */
  ghost predicate Described(sysOf: map<Device, DeviceSys>)
    reads sysOf.Keys`model, sysOf.Keys`vendor, sysOf.Keys`rev, sysOf.Keys`block, sysOf.Keys`sg, sysOf.Keys`slot
  {
    forall d :: d in sysOf ==>
      d.model == SysModel(sysOf[d]) && d.vendor == SysVendor(sysOf[d]) && d.rev == SysRev(sysOf[d])
      && d.block == SysBlock(sysOf[d]) && d.sg == SysSg(sysOf[d]) && d.slot == SysSlot(sysOf[d])
  }

  lemma LinkedExtend(sysOf: map<Device, DeviceSys>, d: Device, s: DeviceSys)
    requires Linked(sysOf)
    requires d.path == s.path && d.devType == SysType(s) && d.serial == SysSerial(s) && d.sasAddress == SysSas(s)
    ensures Linked(sysOf[d := s])
  {
  }

  lemma DescribedExtend(sysOf: map<Device, DeviceSys>, d: Device, s: DeviceSys)
    requires Described(sysOf)
    requires d.model == SysModel(s) && d.vendor == SysVendor(s) && d.rev == SysRev(s)
    requires d.block == SysBlock(s) && d.sg == SysSg(s) && d.slot == SysSlot(s)
    ensures Described(sysOf[d := s])
  {
  }

  /** No device made so far has a MultiPath unit or an enclosure yet: the
      loop sets neither. */
  ghost predicate Unplaced(sysOf: map<Device, DeviceSys>)
    reads sysOf.Keys`multiPath, sysOf.Keys`enclosure
  {
    forall d :: d in sysOf ==> d.multiPath == null && d.enclosure == null
  }

  lemma UnplacedExtend(sysOf: map<Device, DeviceSys>, d: Device, s: DeviceSys)
    requires Unplaced(sysOf) && d.multiPath == null && d.enclosure == null
    ensures Unplaced(sysOf[d := s])
  {
  }

  /** Each device of known type made so far has its HBA and port from the
      HBA table; the others have none. */
  ghost predicate Located(sysOf: map<Device, DeviceSys>, hbas: map<string, Hba>)
    reads sysOf.Keys`hba, sysOf.Keys`port
  {
    forall d :: d in sysOf ==> if KnownSys(sysOf[d]) then OnHba(d, hbas) else d.hba == None && d.port == ""
  }

  lemma LocatedExtend(sysOf: map<Device, DeviceSys>, hbas: map<string, Hba>, hbas': map<string, Hba>,
                      d: Device, s: DeviceSys)
    requires Located(sysOf, hbas) && d !in sysOf
    requires forall k :: k in hbas ==> k in hbas' && hbas'[k] == hbas[k]
    requires if KnownSys(s) then OnHba(d, hbas') else d.hba == None && d.port == ""
    ensures Located(sysOf[d := s], hbas')
  {
    forall x | x in sysOf && KnownSys(sysOf[x]) ensures OnHba(x, hbas') {
      assert OnHba(x, hbas);
    }
  }

  // ---------------------------------------------------------------- ScsiDevices

  /** `Discover` inside the loop: the record of what each device was made
      from, and of where it is located, is extended by the new device. */
  method Admit(name: string, s: DeviceSys, hbas: map<string, Hba>, conf: Conf, ghost sysOf: map<Device, DeviceSys>)
    returns (d: Device, hbas': map<string, Hba>, unknown: bool)
    requires NamedEntryListed(s.node)
    requires Linked(sysOf) && Described(sysOf) && Located(sysOf, hbas)
    ensures fresh(d) && d.id == name && (unknown <==> !KnownSys(s))
    ensures d.multiPath == null && d.enclosure == null
    ensures d.devType == SysType(s) && d.serial == SysSerial(s) && d.sasAddress == SysSas(s)
    ensures hbas' == AddHba(hbas, SysHba(s, conf))
    ensures Linked(sysOf[d := s]) && Described(sysOf[d := s]) && Located(sysOf[d := s], hbas')
  {
    d, hbas', unknown := Discover(name, s, hbas, conf);
    LinkedExtend(sysOf, d, s);
    DescribedExtend(sysOf, d, s);
    LocatedExtend(sysOf, hbas, hbas', d, s);
  }

  /** One turn of the `ScsiDevices` loop. `sysOf` records the sysfs view
      each device was made from, `nameOf` the name it was made under. */
  method Step(entries: seq<DeviceEntry>, i: nat, conf: Conf, devices: map<string, Device>, bySerial: Buckets,
              bySas: Buckets, enclMap: set<Device>, hbas: map<string, Hba>, ghost sysOf: map<Device, DeviceSys>,
              ghost nameOf: map<Device, string>)
    returns (devices': map<string, Device>, bySerial': Buckets, bySas': Buckets, enclMap': set<Device>,
             hbas': map<string, Hba>, ghost sysOf': map<Device, DeviceSys>, ghost nameOf': map<Device, string>)
    requires i < |entries| && (entries[i].sys.Some? ==> NamedEntryListed(entries[i].sys.value.node))
    requires LoopInv(entries, i, devices, bySerial, bySas, enclMap, sysOf, nameOf)
    requires Linked(sysOf) && Described(sysOf) && Located(sysOf, hbas) && hbas == HbaTable(entries[..i], conf)
    requires Unplaced(sysOf)
    ensures LoopInv(entries, i + 1, devices', bySerial', bySas', enclMap', sysOf', nameOf')
    ensures Linked(sysOf') && Described(sysOf') && Located(sysOf', hbas') && hbas' == HbaTable(entries[..i + 1], conf)
    ensures Unplaced(sysOf')
    ensures forall d :: d in sysOf' ==> d in sysOf || fresh(d)
  {
    var e := entries[i];
    HbaTableStep(entries, i, conf);
    if e.sys.None? {
      // `SubObject("device")` failed: the entry is skipped.
      SkipKeepsInv(entries, i, devices, bySerial, bySas, enclMap, sysOf, nameOf);
      return devices, bySerial, bySas, enclMap, hbas, sysOf, nameOf;
    }
    var s := e.sys.value;
    var d, unknown;
    d, hbas', unknown := Admit(e.name, s, hbas, conf, sysOf);
    UnplacedExtend(sysOf, d, s);
    sysOf', nameOf' := sysOf[d := s], nameOf[d := e.name];
    bySerial', bySas', enclMap' := bySerial, bySas, enclMap;
    if unknown {
      // The table entry is deleted again.
      DropKeepsInv(entries, i, devices, bySerial, bySas, enclMap, sysOf, nameOf, d);
      SetThenDelete(devices, e.name, d);
      devices' := devices[e.name := d];
      devices' := devices' - {e.name};
      return;
    }
    KeepKeepsInv(entries, i, devices, bySerial, bySas, enclMap, sysOf, nameOf, d);
    devices' := devices[e.name := d];
    bySerial' := AddTo(bySerial, d.serial, d);
    bySas' := AddTo(bySas, d.sasAddress, d);
    if d.devType == EnclosureType {
      enclMap' := enclMap + {d};
    }
  }

  /** What the loop state says once every entry has been visited. */
  lemma LoopInvMeaning(entries: seq<DeviceEntry>, devices: map<string, Device>, bySerial: Buckets,
                       bySas: Buckets, enclMap: set<Device>, sysOf: map<Device, DeviceSys>,
                       nameOf: map<Device, string>)
    requires LoopInv(entries, |entries|, devices, bySerial, bySas, enclMap, sysOf, nameOf)
    ensures Tracked(devices, Survivors(entries), sysOf) && BucketsSound(bySerial, bySas, sysOf)
    ensures BucketsCover(devices, Survivors(entries), bySerial, bySas)
    ensures EnclosuresFound(devices, Survivors(entries), enclMap, sysOf)
    ensures Resident(NamesUnique(entries), devices, sysOf, nameOf)
  {
    assert entries[..|entries|] == entries;
  }

  /** No device of the table has a MultiPath unit. */
  ghost predicate Unassigned(devices: map<string, Device>)
    reads devices.Values`multiPath
  {
    forall d :: d in devices.Values ==> d.multiPath == null
  }

  /** No device of the table has an enclosure. */
  ghost predicate Unenclosed(devices: map<string, Device>)
    reads devices.Values`enclosure
  {
    forall k :: k in devices ==> devices[k].enclosure == null
  }

  /** The device table holds the survivors, each made from its entry and
      on the HBA of its bus id. */
  ghost predicate Filled(devices: map<string, Device>, surv: map<string, DeviceSys>, hbas: map<string, Hba>)
    reads devices.Values`devType, devices.Values`model, devices.Values`vendor, devices.Values`rev
    reads devices.Values`sasAddress, devices.Values`serial, devices.Values`block, devices.Values`sg
    reads devices.Values`slot, devices.Values`hba, devices.Values`port
  {
    && (forall k :: k in devices <==> k in surv)
    && (forall k :: k in devices ==>
         devices[k].id == k && Known(devices[k].devType) && Made(devices[k], surv[k]) && OnHba(devices[k], hbas))
  }

  /** Each device of the table carries the fields of the survivor it was
      made from, and its HBA and port from the HBA table. */
  lemma TableFields(devices: map<string, Device>, surv: map<string, DeviceSys>, sysOf: map<Device, DeviceSys>,
                    hbas: map<string, Hba>)
    requires forall k :: k in surv ==> Known(SysType(surv[k]))
    requires Tracked(devices, surv, sysOf) && Linked(sysOf) && Described(sysOf) && Located(sysOf, hbas)
    ensures Filled(devices, surv, hbas)
  {
    forall k | k in devices ensures OnHba(devices[k], hbas) && Made(devices[k], surv[k]) {
      assert devices[k] in sysOf && KnownSys(sysOf[devices[k]]);
    }
  }

  /** The enclosure set holds enclosures only, and every enclosure of the
      table. */
  lemma EnclosureFields(devices: map<string, Device>, surv: map<string, DeviceSys>, enclMap: set<Device>,
                        sysOf: map<Device, DeviceSys>)
    requires Tracked(devices, surv, sysOf) && EnclosuresFound(devices, surv, enclMap, sysOf) && Linked(sysOf)
    ensures forall d :: d in enclMap ==> d.devType == EnclosureType
    ensures forall k :: k in devices && devices[k].devType == EnclosureType ==> devices[k] in enclMap
  {
    forall k | k in devices && devices[k].devType == EnclosureType ensures devices[k] in enclMap {
      assert devices[k] in sysOf;
    }
  }

  /** A table device with a serial number is in the bucket of that serial. */
  lemma InSerialBucket(devices: map<string, Device>, surv: map<string, DeviceSys>, bySerial: Buckets,
                       bySas: Buckets, sysOf: map<Device, DeviceSys>, k: string)
    requires Tracked(devices, surv, sysOf) && BucketsCover(devices, surv, bySerial, bySas) && Linked(sysOf)
    requires k in devices && devices[k].serial != ""
    ensures devices[k].serial in bySerial && devices[k] in bySerial[devices[k].serial]
  {
    assert devices[k] in sysOf;
  }

  /** A table device with a SAS address is in the bucket of that address. */
  lemma InSasBucket(devices: map<string, Device>, surv: map<string, DeviceSys>, bySerial: Buckets,
                    bySas: Buckets, sysOf: map<Device, DeviceSys>, k: string)
    requires Tracked(devices, surv, sysOf) && BucketsCover(devices, surv, bySerial, bySas) && Linked(sysOf)
    requires k in devices && devices[k].sasAddress != ""
    ensures devices[k].sasAddress in bySas
  {
    assert devices[k] in sysOf;
  }

  /** Every bucket member carries its bucket's serial number. */
  lemma BucketMembersSerial(bySerial: Buckets, bySas: Buckets, sysOf: map<Device, DeviceSys>, s: string)
    requires BucketsSound(bySerial, bySas, sysOf) && Linked(sysOf) && s in bySerial
    ensures forall x :: x in bySerial[s] ==> x.serial == s
  {
    forall x | x in bySerial[s] ensures x.serial == s {
      assert x in sysOf;
    }
  }

  /** Every table device with a serial number holds the unit stored under
      it, which is among that unit's paths, all of which have the serial. */
  lemma SerialUnitsOfTable(devices: map<string, Device>, surv: map<string, DeviceSys>, bySerial: Buckets,
                           bySas: Buckets, sysOf: map<Device, DeviceSys>, mpds: map<string, MultiPathDevice>)
    requires Tracked(devices, surv, sysOf) && BucketsSound(bySerial, bySas, sysOf)
    requires BucketsCover(devices, surv, bySerial, bySas) && Linked(sysOf)
    requires forall d :: d in devices.Values && d.serial in bySerial ==>
      d.serial in mpds && d.multiPath == mpds[d.serial] && mpds[d.serial].paths == bySerial[d.serial]
    ensures forall k :: k in devices && devices[k].serial != "" ==>
      devices[k].serial in mpds && devices[k].multiPath == mpds[devices[k].serial]
      && devices[k] in mpds[devices[k].serial].paths
      && forall d :: d in mpds[devices[k].serial].paths ==> d.serial == devices[k].serial
  {
    forall k | k in devices && devices[k].serial != ""
      ensures devices[k].serial in mpds && devices[k].multiPath == mpds[devices[k].serial]
        && devices[k] in mpds[devices[k].serial].paths
        && forall d :: d in mpds[devices[k].serial].paths ==> d.serial == devices[k].serial
    {
      InSerialBucket(devices, surv, bySerial, bySas, sysOf, k);
      assert devices[k] in devices.Values;
      BucketMembersSerial(bySerial, bySas, sysOf, devices[k].serial);
    }
  }

  /** A table device with a SAS address, and with or without a serial
      number, has a unit. */
  lemma SasUnitsOfTable(devices: map<string, Device>, surv: map<string, DeviceSys>, bySerial: Buckets,
                        bySas: Buckets, sysOf: map<Device, DeviceSys>)
    requires Tracked(devices, surv, sysOf) && BucketsCover(devices, surv, bySerial, bySas) && Linked(sysOf)
    requires forall d :: d in devices.Values && d.serial in bySerial ==> d.multiPath != null
    requires forall d :: d in devices.Values && d.serial !in bySerial && d.sasAddress in bySas ==> d.multiPath != null
    ensures forall k :: k in devices && devices[k].sasAddress != "" ==> devices[k].multiPath != null
  {
    forall k | k in devices && devices[k].sasAddress != "" ensures devices[k].multiPath != null {
      InSasBucket(devices, surv, bySerial, bySas, sysOf, k);
      assert devices[k] in devices.Values;
    }
  }

  /** The merge skips a table device exactly when it has neither a serial
      number nor a SAS address. */
  lemma MatchedOfTable(devices: map<string, Device>, surv: map<string, DeviceSys>, bySerial: Buckets,
                       bySas: Buckets, sysOf: map<Device, DeviceSys>, d: Device)
    requires Tracked(devices, surv, sysOf) && BucketsSound(bySerial, bySas, sysOf)
    requires BucketsCover(devices, surv, bySerial, bySas) && Linked(sysOf)
    requires d in devices.Values
    ensures Matched(d, bySerial, bySas) <==> d.serial != "" || d.sasAddress != ""
  {
    var k :| k in devices && devices[k] == d;
    if d.serial != "" {
      InSerialBucket(devices, surv, bySerial, bySas, sysOf, k);
    }
    if d.sasAddress != "" {
      InSasBucket(devices, surv, bySerial, bySas, sysOf, k);
    }
  }

  /** A table device that the merge skips, one with neither a serial
      number nor a SAS address, keeps the nil unit it was made with. */
  lemma SkippedOfTable(devices: map<string, Device>, surv: map<string, DeviceSys>, bySerial: Buckets,
                       bySas: Buckets, sysOf: map<Device, DeviceSys>)
    requires Tracked(devices, surv, sysOf) && BucketsSound(bySerial, bySas, sysOf)
    requires BucketsCover(devices, surv, bySerial, bySas) && Linked(sysOf)
    requires forall d :: d in devices.Values && !Matched(d, bySerial, bySas) ==> d.multiPath == null
    ensures forall k :: k in devices && devices[k].serial == "" && devices[k].sasAddress == "" ==>
      devices[k].multiPath == null
  {
    forall k | k in devices && devices[k].serial == "" && devices[k].sasAddress == ""
      ensures devices[k].multiPath == null
    {
      assert devices[k] in devices.Values;
      MatchedOfTable(devices, surv, bySerial, bySas, sysOf, devices[k]);
    }
  }

  /** The result is keyed by the serial of every table device with a
      serial number or a SAS address. */
  lemma UnitKeys(devices: map<string, Device>, surv: map<string, DeviceSys>, bySerial: Buckets,
                 bySas: Buckets, sysOf: map<Device, DeviceSys>, mpds: map<string, MultiPathDevice>)
    requires Tracked(devices, surv, sysOf) && BucketsSound(bySerial, bySas, sysOf)
    requires BucketsCover(devices, surv, bySerial, bySas) && Linked(sysOf)
    requires forall s :: s in mpds <==> exists d :: d in devices.Values && Matched(d, bySerial, bySas) && d.serial == s
    ensures forall s :: s in mpds <==>
      exists d :: d in devices.Values && d.serial == s && (d.serial != "" || d.sasAddress != "")
  {
    forall s ensures s in mpds <==>
      exists d :: d in devices.Values && d.serial == s && (d.serial != "" || d.sasAddress != "")
    {
      if s in mpds {
        var d :| d in devices.Values && Matched(d, bySerial, bySas) && d.serial == s;
        MatchedOfTable(devices, surv, bySerial, bySas, sysOf, d);
      }
      if exists d :: d in devices.Values && d.serial == s && (d.serial != "" || d.sasAddress != "") {
        var d :| d in devices.Values && d.serial == s && (d.serial != "" || d.sasAddress != "");
        MatchedOfTable(devices, surv, bySerial, bySas, sysOf, d);
      }
    }
  }

  /** With unique entry names, a serial's bucket holds exactly the table's
      devices of that serial. */
  lemma BucketIsSerialClass(devices: map<string, Device>, surv: map<string, DeviceSys>, bySerial: Buckets,
                            bySas: Buckets, sysOf: map<Device, DeviceSys>, nameOf: map<Device, string>, s: string)
    requires Tracked(devices, surv, sysOf) && BucketsSound(bySerial, bySas, sysOf)
    requires BucketsCover(devices, surv, bySerial, bySas) && Resident(true, devices, sysOf, nameOf) && Linked(sysOf)
    requires s in bySerial
    ensures forall x :: x in bySerial[s] <==> x in devices.Values && x.serial == s
  {
    BucketMembersSerial(bySerial, bySas, sysOf, s);
    forall x | x in bySerial[s] ensures x in devices.Values {
      assert x in sysOf && KnownSys(sysOf[x]);
      assert devices[nameOf[x]] == x;
    }
    forall x | x in devices.Values && x.serial == s ensures x in bySerial[s] {
      var j :| j in devices && devices[j] == x;
      InSerialBucket(devices, surv, bySerial, bySas, sysOf, j);
    }
  }

  /** With unique entry names, nothing outside the table is collected, and
      a unit's paths are exactly the table's devices of its serial. */
  lemma NothingOutside(unique: bool, devices: map<string, Device>, surv: map<string, DeviceSys>,
                       bySerial: Buckets, bySas: Buckets, enclMap: set<Device>, sysOf: map<Device, DeviceSys>,
                       nameOf: map<Device, string>, mpds: map<string, MultiPathDevice>)
    requires Tracked(devices, surv, sysOf) && BucketsSound(bySerial, bySas, sysOf)
    requires BucketsCover(devices, surv, bySerial, bySas) && EnclosuresFound(devices, surv, enclMap, sysOf)
    requires Resident(unique, devices, sysOf, nameOf) && Linked(sysOf)
    requires forall d :: d in devices.Values && d.serial in bySerial ==>
      d.serial in mpds && mpds[d.serial].paths == bySerial[d.serial]
    ensures unique ==> enclMap <= devices.Values
    ensures unique ==> forall k :: k in devices && devices[k].serial != "" ==>
      forall d :: d in mpds[devices[k].serial].paths <==> d in devices.Values && d.serial == devices[k].serial
  {
    if unique {
      forall d | d in enclMap ensures d in devices.Values {
        assert d in sysOf && SysType(sysOf[d]) == EnclosureType;
        assert devices[nameOf[d]] == d;
      }
      forall k | k in devices && devices[k].serial != ""
        ensures forall d :: d in mpds[devices[k].serial].paths <==> d in devices.Values && d.serial == devices[k].serial
      {
        InSerialBucket(devices, surv, bySerial, bySas, sysOf, k);
        assert devices[k] in devices.Values;
        BucketIsSerialClass(devices, surv, bySerial, bySas, sysOf, nameOf, devices[k].serial);
      }
    }
  }

  /** What the merge leaves in the table: every device with a serial
      number holds the unit stored under it, which is among that unit's
      paths, all of which have the serial; a device with a SAS address has
      a unit; a device with neither has none; the units are keyed by the
      serial of every device with either; with unique entry names, a
      unit's paths are exactly the table's devices of its serial. */
  ghost predicate Merged(unique: bool, devices: map<string, Device>, mpds: map<string, MultiPathDevice>)
    reads devices.Values`multiPath, devices.Values`serial, devices.Values`sasAddress
  {
    && (forall k :: k in devices && devices[k].serial != "" ==>
         devices[k].serial in mpds && devices[k].multiPath == mpds[devices[k].serial]
         && devices[k] in mpds[devices[k].serial].paths)
    && (forall k :: k in devices && devices[k].sasAddress != "" ==> devices[k].multiPath != null)
    && (forall k :: k in devices && devices[k].serial == "" && devices[k].sasAddress == "" ==>
         devices[k].multiPath == null)
    && (forall s :: s in mpds <==>
         exists d :: d in devices.Values && d.serial == s && (d.serial != "" || d.sasAddress != ""))
    && (unique ==> forall k :: k in devices && devices[k].serial != "" ==>
         (forall d :: d in mpds[devices[k].serial].paths ==> d in devices.Values)
         && forall d :: d in devices.Values && d.serial == devices[k].serial ==> d in mpds[devices[k].serial].paths)
  }

  /** Every path of the unit of a device with a serial number has that
      serial. */
  ghost predicate PathsShareSerial(devices: map<string, Device>, mpds: map<string, MultiPathDevice>)
    reads devices.Values`serial, set u, d | u in mpds.Values && d in u.paths :: d`serial
  {
    forall k :: k in devices && devices[k].serial != "" && devices[k].serial in mpds ==>
      forall d :: d in mpds[devices[k].serial].paths ==> d.serial == devices[k].serial
  }

  /** The merge step of `ScsiDevices`, over the finished table and
      buckets: every device of the table with a serial number or a SAS
      address gets its MultiPath unit. */
  method MergeUnits(entries: seq<DeviceEntry>, devices: map<string, Device>, bySerial: Buckets, bySas: Buckets,
               enclMap: set<Device>, ghost sysOf: map<Device, DeviceSys>, ghost nameOf: map<Device, string>)
    returns (mpds: map<string, MultiPathDevice>)
    requires Tracked(devices, Survivors(entries), sysOf) && BucketsSound(bySerial, bySas, sysOf)
    requires BucketsCover(devices, Survivors(entries), bySerial, bySas)
    requires EnclosuresFound(devices, Survivors(entries), enclMap, sysOf)
    requires Resident(NamesUnique(entries), devices, sysOf, nameOf) && Linked(sysOf)
    requires Unassigned(devices)
    requires Unenclosed(devices)
    modifies devices.Values`multiPath
    ensures Merged(NamesUnique(entries), devices, mpds) && PathsShareSerial(devices, mpds) && Unenclosed(devices)
    ensures NamesUnique(entries) ==> enclMap <= devices.Values
  {
    ghost var surv := Survivors(entries);
    mpds := UpdateMultiPaths(devices, bySerial, bySas);
    assert Linked(sysOf);
    SerialUnitsOfTable(devices, surv, bySerial, bySas, sysOf, mpds);
    SasUnitsOfTable(devices, surv, bySerial, bySas, sysOf);
    UnitKeys(devices, surv, bySerial, bySas, sysOf, mpds);
    NothingOutside(NamesUnique(entries), devices, surv, bySerial, bySas, enclMap, sysOf, nameOf, mpds);
    SkippedOfTable(devices, surv, bySerial, bySas, sysOf);
  }

  /** The loop of `ScsiDevices`: it makes, fills in and files one device
      per resolved entry. */
  method Collect(entries: seq<DeviceEntry>, conf: Conf)
    returns (devices: map<string, Device>, bySerial: Buckets, bySas: Buckets, enclMap: set<Device>,
             hbas: map<string, Hba>, ghost sysOf: map<Device, DeviceSys>, ghost nameOf: map<Device, string>)
    requires forall i :: 0 <= i < |entries| && entries[i].sys.Some? ==> NamedEntryListed(entries[i].sys.value.node)
    ensures Filled(devices, Survivors(entries), hbas) && hbas == HbaTable(entries, conf)
    ensures forall d :: d in enclMap ==> d.devType == EnclosureType
    ensures forall k :: k in devices && devices[k].devType == EnclosureType ==> devices[k] in enclMap
    ensures Tracked(devices, Survivors(entries), sysOf) && BucketsSound(bySerial, bySas, sysOf)
    ensures BucketsCover(devices, Survivors(entries), bySerial, bySas)
    ensures EnclosuresFound(devices, Survivors(entries), enclMap, sysOf)
    ensures Resident(NamesUnique(entries), devices, sysOf, nameOf) && Linked(sysOf)
    ensures forall d :: d in devices.Values ==> fresh(d)
    // The loop assigns neither a unit nor an enclosure.
    ensures Unassigned(devices) && Unenclosed(devices)
  {
    devices, enclMap, hbas := map[], {}, map[];
    bySerial, bySas := map[], map[];
    sysOf, nameOf := map[], map[];
    for i := 0 to |entries|
      invariant LoopInv(entries, i, devices, bySerial, bySas, enclMap, sysOf, nameOf)
      invariant Linked(sysOf) && Described(sysOf) && Located(sysOf, hbas) && hbas == HbaTable(entries[..i], conf)
      invariant Unplaced(sysOf)
      invariant forall d :: d in sysOf ==> fresh(d)
    {
      devices, bySerial, bySas, enclMap, hbas, sysOf, nameOf :=
        Step(entries, i, conf, devices, bySerial, bySas, enclMap, hbas, sysOf, nameOf);
    }
    assert entries[..|entries|] == entries;
    LoopInvMeaning(entries, devices, bySerial, bySas, enclMap, sysOf, nameOf);
    forall d | d in devices.Values ensures d.multiPath == null && d.enclosure == null {
      var k :| k in devices && devices[k] == d;
    }
    TableFields(devices, Survivors(entries), sysOf, hbas);
    EnclosureFields(devices, Survivors(entries), enclMap, sysOf);
    forall d | d in devices.Values ensures fresh(d) {
      var k :| k in devices && devices[k] == d;
    }
  }

  /** The merge step over the table `Collect` leaves: only the units
      change, so every device keeps its fields, HBA and port. */
  method AssignUnits(entries: seq<DeviceEntry>, devices: map<string, Device>, bySerial: Buckets, bySas: Buckets,
                     enclMap: set<Device>, ghost hbas: map<string, Hba>, ghost sysOf: map<Device, DeviceSys>,
                     ghost nameOf: map<Device, string>)
    returns (mpds: map<string, MultiPathDevice>)
    requires Tracked(devices, Survivors(entries), sysOf) && BucketsSound(bySerial, bySas, sysOf)
    requires BucketsCover(devices, Survivors(entries), bySerial, bySas)
    requires EnclosuresFound(devices, Survivors(entries), enclMap, sysOf)
    requires Resident(NamesUnique(entries), devices, sysOf, nameOf) && Linked(sysOf)
    requires Filled(devices, Survivors(entries), hbas)
    requires forall d :: d in enclMap ==> d.devType == EnclosureType
    requires Unassigned(devices)
    requires Unenclosed(devices)
    modifies devices.Values`multiPath
    ensures Filled(devices, Survivors(entries), hbas)
    ensures forall d :: d in enclMap ==> d.devType == EnclosureType
    ensures Merged(NamesUnique(entries), devices, mpds) && PathsShareSerial(devices, mpds) && Unenclosed(devices)
    ensures NamesUnique(entries) ==> enclMap <= devices.Values
  {
    mpds := MergeUnits(entries, devices, bySerial, bySas, enclMap, sysOf, nameOf);
  }

  /** `ScsiDevices(conf)` over the listed entries, up to the call of
      `Enclosures`: the device table, the MultiPath units, the enclosure
      devices (`EnclMap`) and the HBA table. */
  method ScsiDevices(entries: seq<DeviceEntry>, conf: Conf)
    returns (devices: map<string, Device>, mpds: map<string, MultiPathDevice>, enclMap: set<Device>,
             hbas: map<string, Hba>)
    requires forall i :: 0 <= i < |entries| && entries[i].sys.Some? ==> NamedEntryListed(entries[i].sys.value.node)
    // The table holds the survivors, each a device made from its entry
    // (`Made`) with the HBA of its bus id and its port (`OnHba`); the HBA
    // table holds the first HBA offered for each bus id.
    ensures Filled(devices, Survivors(entries), hbas)
    ensures hbas == HbaTable(entries, conf)
    // EnclMap holds enclosures only, and every enclosure of the table.
    ensures forall d :: d in enclMap ==> d.devType == EnclosureType
    ensures forall k :: k in devices && devices[k].devType == EnclosureType ==> devices[k] in enclMap
    // The merge (`Merged`, `PathsShareSerial`): every device with a serial
    // number holds the unit stored under it, which is among its paths, all
    // of which have that serial; a device with only a SAS address gets a
    // unit too; a device with neither is skipped and has no unit; the
    // result is keyed by the serial of every device with either; with
    // unique entry names, a unit's paths are exactly the table's devices of
    // its serial.
    ensures Merged(NamesUnique(entries), devices, mpds) && PathsShareSerial(devices, mpds)
    // No device has an enclosure before `Enclosures` runs.
    ensures forall k :: k in devices ==> devices[k].enclosure == null
    // With unique entry names, nothing outside the table is collected.
    ensures NamesUnique(entries) ==> enclMap <= devices.Values
    ensures HbaTableKeyed(hbas)
  {
    var bySerial, bySas;
    ghost var sysOf, nameOf;
    devices, bySerial, bySas, enclMap, hbas, sysOf, nameOf := Collect(entries, conf);
    mpds := AssignUnits(entries, devices, bySerial, bySas, enclMap, hbas, sysOf, nameOf);
  }
}
