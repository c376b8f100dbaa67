/** lib/device.go, per-device part: the Device record, the shared
    MultiPathDevice and Enclosure objects, and the steps that fill in one
    device from its sysfs entry (attributes, serial number, HBA and port,
    enclosure slot), with the adapter's port graph built on first sight. */
module Topology {
  import opened Base
  import opened GoStrings
  import opened Sysfs
  import opened Hba
  import opened Vpd

  /** The configuration values the core reads (lib/conf.go): slot labels per
      PCI bus id, and how many path elements enclosure matching compares. */
  datatype Conf = Conf(hbaLabels: map<string, string>, sysfsMatchPathEncl: int)

  /** The type every device starts with, before the `type` attribute is read. */
  const UnreadType: int := -1

  /** The elements of a sysfs path, `strings.Split(path, "/")`. */
  function PathElements(path: string): seq<string>
  {
    Split(path, '/')
  }

  /** A SCSI device as seen through one I/O path. */
  class Device {
    const id: string
    /** The device's sysfs path (`string(d.sysfsObj)`). */
    const path: string
    var devType: int
    var vendor: string
    var model: string
    var rev: string
    var sasAddress: string
    var serial: string
    var block: string
    var sg: string
    var enclosure: Enclosure?
    var hba: Option<Hba>
    var port: string
    var slot: int
    var multiPath: MultiPathDevice?

    /** `&Device{ID: name, sysfsObj: obj, Type: -1}`: every other field has
        its zero value. */
    constructor (id: string, path: string)
      ensures this.id == id && this.path == path && devType == UnreadType
      ensures vendor == "" && model == "" && rev == "" && sasAddress == "" && serial == ""
      ensures block == "" && sg == "" && port == "" && slot == 0
      ensures enclosure == null && hba == None && multiPath == null
    {
      this.id := id;
      this.path := path;
      devType := UnreadType;
      vendor, model, rev, sasAddress, serial, block, sg, port := "", "", "", "", "", "", "", "";
      enclosure, hba, slot, multiPath := null, None, 0, null;
    }

    /** `updateSysfsAttrs`: model, vendor and rev are read in that order and
        the first failure returns with the later fields untouched; a missing
        sas_address only warns and leaves it empty; a failed `type` read
        returns before `devType`, `block` and `sg` are set. */
    method UpdateSysfsAttrs(node: Node) returns (err: Option<Error>)
      requires NamedEntryListed(node)
      modifies this`model, this`vendor, this`rev, this`sasAddress, this`devType, this`block, this`sg
      ensures Read(node, "model").None? ==>
        err == Some(AttributeUnreadable("model")) && model == old(model) && vendor == old(vendor)
        && rev == old(rev) && sasAddress == old(sasAddress) && devType == old(devType)
        && block == old(block) && sg == old(sg)
      ensures Read(node, "model").Some? ==> model == Read(node, "model").value
      ensures Read(node, "model").Some? && Read(node, "vendor").None? ==>
        err == Some(AttributeUnreadable("vendor")) && vendor == old(vendor)
        && rev == old(rev) && sasAddress == old(sasAddress) && devType == old(devType)
        && block == old(block) && sg == old(sg)
      ensures Read(node, "model").Some? && Read(node, "vendor").Some? ==> vendor == Read(node, "vendor").value
      ensures Read(node, "model").Some? && Read(node, "vendor").Some? && Read(node, "rev").None? ==>
        err == Some(AttributeUnreadable("rev")) && rev == old(rev) && sasAddress == old(sasAddress)
        && devType == old(devType) && block == old(block) && sg == old(sg)
      ensures AttrsReadable(node) ==>
        rev == Read(node, "rev").value
        && sasAddress == GetOr(node.attrs, "sas_address", "")
      ensures AttrsReadable(node) && ReadInt(node, "type").None? ==>
        err == Some(AttributeUnreadable("type")) && devType == old(devType) && block == old(block) && sg == old(sg)
      ensures AttrsReadable(node) && ReadInt(node, "type").Some? ==>
        err == None && devType == ReadInt(node, "type").value
        && block == FirstEntryName(node, "block", old(block))
        && sg == FirstEntryName(node, "scsi_generic", old(sg))
    {
      var m := Read(node, "model");
      if m.None? {
        return Some(AttributeUnreadable("model"));
      }
      model := m.value;

      var v := Read(node, "vendor");
      if v.None? {
        return Some(AttributeUnreadable("vendor"));
      }
      vendor := v.value;

      var r := Read(node, "rev");
      if r.None? {
        return Some(AttributeUnreadable("rev"));
      }
      rev := r.value;

      // A device without sas_address is only warned about.
      var a := Read(node, "sas_address");
      sasAddress := if a.Some? then a.value else "";

      var t := ReadInt(node, "type");
      if t.None? {
        return Some(AttributeUnreadable("type"));
      }
      devType := t.value;

      var b := SubObject(node, "block");
      if b.Some? {
        block := b.value.children[0].name;
      }
      var g := SubObject(node, "scsi_generic");
      if g.Some? {
        sg := g.value.children[0].name;
      }
      return None;
    }

    /** `updateDriveSerial`: the serial number from page 0x80. */
    method UpdateDriveSerial(page: Pg80File) returns (err: Option<Error>)
      modifies this`serial
      ensures page.Pg80? ==> err == None && serial == Pg80Serial(page.data)
      ensures page.Unopenable? ==> err == Some(OpenFailed) && serial == old(serial)
      ensures page.Unreadable? ==> err == Some(ReadFailed) && serial == old(serial)
    {
      var sn, e := Vpd80(page);
      if e.Some? {
        return e;
      }
      serial := sn;
      return None;
    }

    /** `updateEnclosureSerial` (lib/enclosure.go): model "SA4600" keeps the
        serial as it is; every other model reads page 0x80. */
    method UpdateEnclosureSerial(page: Pg80File) returns (err: Option<Error>)
      modifies this`serial
      ensures model == NoPg80Model ==> err == None && serial == old(serial)
      ensures model != NoPg80Model && page.Pg80? ==> err == None && serial == Pg80Serial(page.data)
      ensures model != NoPg80Model && page.Unopenable? ==> err == Some(OpenFailed) && serial == old(serial)
      ensures model != NoPg80Model && page.Unreadable? ==> err == Some(ReadFailed) && serial == old(serial)
    {
      if model == NoPg80Model {
        return None;
      }
      var sn, e := Vpd80(page);
      if e.Some? {
        return e;
      }
      serial := sn;
      return None;
    }

    /** `updateSerial`: disks read page 0x80, enclosures go by model, and
        any other type code (the unread -1 included) is ErrUnknownType. */
    method UpdateSerial(page: Pg80File) returns (err: Option<Error>)
      modifies this`serial
      ensures devType != DiskType && devType != EnclosureType ==>
        err == Some(UnknownType) && serial == old(serial)
      ensures err == Some(UnknownType) ==> devType != DiskType && devType != EnclosureType
      ensures (devType == DiskType || (devType == EnclosureType && model != NoPg80Model)) ==>
        (page.Pg80? ==> err == None && serial == Pg80Serial(page.data))
        && (page.Unopenable? ==> err == Some(OpenFailed) && serial == old(serial))
        && (page.Unreadable? ==> err == Some(ReadFailed) && serial == old(serial))
      ensures devType == EnclosureType && model == NoPg80Model ==> err == None && serial == old(serial)
    {
      if devType == DiskType {
        err := UpdateDriveSerial(page);
      } else if devType == EnclosureType {
        err := UpdateEnclosureSerial(page);
      } else {
        err := Some(UnknownType);
      }
    }

    /** `updatePathVars`: element 5 of the path is the HBA's PCI bus id,
        element 6 its SCSI host, element 7 the port. The HBA table is a
        get-or-insert keyed by the bus id; `host` is the sysfs node of the
        host directory, whose ports are enumerated only on insertion. */
    method UpdatePathVars(hbas: map<string, Hba>, conf: Conf, host: Node)
      returns (hbas': map<string, Hba>, err: Option<Error>)
      modifies this`hba, this`port
      ensures |PathElements(path)| < 8 ==>
        err == Some(MalformedPath(path)) && hbas' == hbas && hba == old(hba) && port == old(port)
      ensures |PathElements(path)| >= 8 ==>
        var p := PathElements(path);
        err == None && port == p[7] && p[5] in hbas' && hba == Some(hbas'[p[5]])
        && (p[5] in hbas ==> hbas' == hbas)
        && (p[5] !in hbas ==>
              hbas' == hbas[p[5] := Hba(p[5], p[6], GetOr(conf.hbaLabels, p[5], ""), HostPorts(host))])
      ensures HbaTableKeyed(hbas) ==> HbaTableKeyed(hbas')
      ensures hbas.Keys <= hbas'.Keys && |hbas'.Keys - hbas.Keys| <= 1
    {
      var p := PathElements(path);
      if |p| < 8 {
        return hbas, Some(MalformedPath(path));
      }
      if p[5] in hbas {
        hba := Some(hbas[p[5]]);
        hbas' := hbas;
      } else {
        var ports := FindHbaPorts(host);
        hbas' := hbas[p[5] := Hba(p[5], p[6], GetOr(conf.hbaLabels, p[5], ""), ports)];
        hba := Some(hbas'[p[5]]);
        assert hbas'.Keys - hbas.Keys == {p[5]};
      }
      port := p[7];
      err := None;
    }

    /** `updateEnclSlot` for disks: first the end device's `bay_identifier`
        (both the `sas_device/<end device>` lookup and the integer read must
        succeed), then the first `enclosure_device:<slot>` entry the glob
        lists. `endDevice` is the sysfs node two levels above the device and
        `files` the glob's matches, in order. */
    method UpdateEnclSlot(endDevice: Node, files: seq<string>) returns (err: Option<Error>)
      modifies this`slot
      ensures devType != DiskType ==> err == None && slot == old(slot)
      ensures devType == DiskType && BaySlot(endDevice).Some? ==> err == None && slot == BaySlot(endDevice).value
      ensures devType == DiskType && BaySlot(endDevice).None? && files == [] ==> err == None && slot == old(slot)
      ensures devType == DiskType && BaySlot(endDevice).None? && files != [] ==>
        match EnclosureSlot(files[0])
        case None => err == None && slot == old(slot)
        case Some(a) => slot == a.value && (err == None <==> a.ok)
      ensures devType == DiskType ==> slot == EnclSlot(endDevice, files, old(slot))
    {
      // Only disks (type 0) have slots.
      if devType != DiskType {
        return None;
      }
      var bay := BaySlot(endDevice);
      if bay.Some? {
        slot := bay.value;
        return None;
      }
      if |files| == 0 {
        return None;
      }
      // More than one entry is only warned about: the first one is used.
      var parsed := EnclosureSlot(files[0]);
      if parsed.Some? {
        slot := parsed.value.value;
        err := if parsed.value.ok then None else Some(AtoiFailed(SlotText(files[0])));
      } else {
        err := None;
      }
    }
  }

  /** A Go `sysfs.Object` listing used with `SubObjects()[0]` has an entry:
      a `block` or `scsi_generic` directory that exists is not empty. */
  predicate NamedEntryListed(node: Node)
  {
    && (SubObject(node, "block").Some? ==> SubObject(node, "block").value.children != [])
    && (SubObject(node, "scsi_generic").Some? ==> SubObject(node, "scsi_generic").value.children != [])
  }

  /** model, vendor and rev can all be read. */
  predicate AttrsReadable(node: Node)
  {
    Read(node, "model").Some? && Read(node, "vendor").Some? && Read(node, "rev").Some?
  }

  /** The name of the first entry of the `dir` sub-object, or `default`
      when there is no such sub-object. */
  function FirstEntryName(node: Node, dir: string, default: string): string
  {
    var d := SubObject(node, dir);
    if d.Some? && d.value.children != [] then d.value.children[0].name else default
  }

  /** Every HBA table entry is stored under its own PCI bus id. */
  predicate HbaTableKeyed(hbas: map<string, Hba>)
  {
    forall k :: k in hbas ==> hbas[k].pciId == k
  }

  /** The `bay_identifier` of `sas_device/<end device name>` under the end
      device, when both the lookup and the integer read succeed. */
  function BaySlot(endDevice: Node): Option<int>
  {
    match SubObject(endDevice, "sas_device")
    case None => None
    case Some(dir) =>
      match SubObject(dir, endDevice.name)
      case None => None
      case Some(sasDevice) => ReadInt(sasDevice, "bay_identifier")
  }

  /** The slot `updateEnclSlot` leaves a disk with, starting from `slot`:
      the readable `bay_identifier`, else the value parsed from the first
      `enclosure_device:` entry whose name has one colon, else `slot`. */
  function EnclSlot(endDevice: Node, files: seq<string>, slot: int): int
  {
    if BaySlot(endDevice).Some? then BaySlot(endDevice).value
    else if files != [] && EnclosureSlot(files[0]).Some? then EnclosureSlot(files[0]).value.value
    else slot
  }

  /** The last element of a path. */
  function BaseName(file: string): string
  {
    var elems := Split(file, '/');
    elems[|elems| - 1]
  }

  /** The text after the colon of an `enclosure_device:<slot>` entry, space trimmed. */
  function SlotText(file: string): string
  {
    var parts := Split(BaseName(file), ':');
    if |parts| == 2 then TrimSpace(parts[1]) else ""
  }

  /** The slot an `enclosure_device:<slot>` entry names: `Atoi` of the
      space-trimmed text after the colon, when the entry name splits into
      exactly two parts at ':'; nothing otherwise. */
  function EnclosureSlot(file: string): (r: Option<AtoiResult>)
    ensures r.Some? <==> |Split(BaseName(file), ':')| == 2
    ensures r.Some? ==> r.value == Atoi(SlotText(file))
  {
    var parts := Split(BaseName(file), ':');
    if |parts| == 2 then Some(Atoi(TrimSpace(parts[1]))) else None
  }

  /** The last element of `dir/name` is `name`. */
  lemma BaseNameOf(dir: string, name: string)
    requires '/' !in name
    ensures BaseName(dir + ['/'] + name) == name
  {
    SplitAppend(dir, name, '/');
    SplitNoSep(name, '/');
  }

  /** An entry name with one colon splits into the text before and after it. */
  lemma SplitOneColon(a: string, b: string)
    requires ':' !in a && ':' !in b
    ensures Split(a + [':'] + b, ':') == [a, b]
  {
    SplitAppend(a, b, ':');
    SplitNoSep(a, ':');
    SplitNoSep(b, ':');
  }

  /** Itoa writes an optional '-' and decimal digits only. */
  lemma ItoaChars(n: int)
    ensures |Itoa(n)| >= 1
    ensures forall i :: 0 <= i < |Itoa(n)| ==> Itoa(n)[i] == '-' || IsDigit(Itoa(n)[i])
    ensures IsDigit(Itoa(n)[|Itoa(n)| - 1])
  {
  }

  /** An entry whose base name is `enclosure_device:<text>`, with no ':' in
      the text, parses as `Atoi` of the trimmed text. */
  lemma EnclosureSlotOfEntry(file: string, text: string)
    requires ':' !in text && BaseName(file) == "enclosure_device" + [':'] + text
    ensures EnclosureSlot(file) == Some(Atoi(TrimSpace(text)))
  {
    SplitOneColon("enclosure_device", text);
  }

  /** An entry `<dir>/enclosure_device:<text>`, with neither '/' nor ':' in
      the text, parses as `Atoi` of the trimmed text. */
  lemma EnclosureSlotOfText(dir: string, text: string)
    requires '/' !in text && ':' !in text
    ensures EnclosureSlot(dir + "/enclosure_device:" + text) == Some(Atoi(TrimSpace(text)))
  {
    var name := "enclosure_device" + [':'] + text;
    var file := dir + "/enclosure_device:" + text;
    EntryNameChars(text);
    EntryPath(dir, text);
    BaseNameOf(dir, name);
    EnclosureSlotOfEntry(file, text);
  }

  lemma EntryPath(dir: string, text: string)
    ensures dir + "/enclosure_device:" + text == dir + ['/'] + ("enclosure_device" + [':'] + text)
  {
    assert "/enclosure_device:" == ['/'] + "enclosure_device" + [':'];
  }

  lemma EntryNameChars(text: string)
    requires '/' !in text
    ensures '/' !in "enclosure_device" + [':'] + text
  {
    assert '/' !in "enclosure_device" + [':'];
  }

  /** An entry `<dir>/enclosure_device:<n>` names slot n, for every int64 n. */
  lemma EnclosureSlotOfNumber(dir: string, n: int)
    requires MinInt64 <= n <= MaxInt64
    ensures EnclosureSlot(dir + "/enclosure_device:" + Itoa(n)) == Some(AtoiResult(n, true))
  {
    var num := Itoa(n);
    ItoaChars(n);
    EnclosureSlotOfText(dir, num);
    assert !IsSpace(num[0]) && !IsSpace(num[|num| - 1]);
    AtoiItoa(n);
  }

  /** The label form the comment on `updateEnclSlot` shows,
      `enclosure_device:Slot 1`, does not parse: Atoi fails and the slot
      becomes 0 with an error. */
  lemma SlotLabelDoesNotParse(dir: string)
    ensures EnclosureSlot(dir + "/enclosure_device:Slot 1") == Some(AtoiResult(0, false))
  {
    var text := "Slot 1";
    assert dir + "/enclosure_device:Slot 1" == dir + "/enclosure_device:" + text;
    EnclosureSlotOfText(dir, text);
    assert text[0] == 'S' && text[|text| - 1] == '1';
    assert TrimSpace(text) == text;
    assert !AllDigits(text) by {
      assert !IsDigit(text[0]);
    }
    assert Atoi(text) == AtoiResult(0, false);
  }

  // ------------------------------------------------------------------ findHBAPorts

  /** The phy a `phy-*` node describes: `sas_phy/<phy name>` must exist and
      have both `phy_identifier` and `sas_address`. */
  function PhyOf(phy: Node): Option<Phy>
  {
    match SubObject(phy, "sas_phy")
    case None => None
    case Some(dir) =>
      match SubObject(dir, phy.name)
      case None => None
      case Some(sasPhy) =>
        match (Read(sasPhy, "phy_identifier"), Read(sasPhy, "sas_address"))
        case (Some(id), Some(addr)) => Some(Phy(id, addr))
        case _ => None
  }

  /** The readable phys among `phyNodes`, in order; unreadable ones are skipped. */
  function ReadablePhys(phyNodes: seq<Node>): seq<Phy>
    decreases |phyNodes|
  {
    if |phyNodes| == 0 then []
    else
      var rest := ReadablePhys(phyNodes[1..]);
      match PhyOf(phyNodes[0])
      case Some(p) => [p] + rest
      case None => rest
  }

  /** The ports `findHBAPorts` builds for a host node. */
  function HostPorts(host: Node): seq<HbaPort>
  {
    var portNodes := SubObjectsFilter(host, "port-");
    seq(|portNodes|, i requires 0 <= i < |portNodes| => PortOf(portNodes[i]))
  }

  /** The port `findHBAPorts` builds for one `port-*` node. */
  function PortOf(portNode: Node): HbaPort
  {
    HbaPort(portNode.name, ReadablePhys(SubObjectsFilter(portNode, "phy-")))
  }

  lemma {:induction false} ReadablePhysAppend(phyNodes: seq<Node>, n: Node)
    ensures ReadablePhys(phyNodes + [n]) ==
      ReadablePhys(phyNodes) + (if PhyOf(n).Some? then [PhyOf(n).value] else [])
    decreases |phyNodes|
  {
    if |phyNodes| > 0 {
      assert (phyNodes + [n])[1..] == phyNodes[1..] + [n];
      ReadablePhysAppend(phyNodes[1..], n);
    } else {
      assert phyNodes + [n] == [n];
    }
  }

  /** A phy is listed exactly when some phy node yields it: nodes whose
      lookups or reads fail contribute nothing, and nothing else is dropped. */
  lemma {:induction false} ReadablePhysMembers(phyNodes: seq<Node>, p: Phy)
    ensures p in ReadablePhys(phyNodes) <==> exists i :: 0 <= i < |phyNodes| && PhyOf(phyNodes[i]) == Some(p)
    ensures |ReadablePhys(phyNodes)| <= |phyNodes|
    decreases |phyNodes|
  {
    if |phyNodes| > 0 {
      var rest := phyNodes[1..];
      ReadablePhysMembers(rest, p);
      var head := if PhyOf(phyNodes[0]).Some? then [PhyOf(phyNodes[0]).value] else [];
      assert ReadablePhys(phyNodes) == head + ReadablePhys(rest);
      if p in ReadablePhys(phyNodes) {
        if p in head {
          assert PhyOf(phyNodes[0]) == Some(p);
        } else {
          var i :| 0 <= i < |rest| && PhyOf(rest[i]) == Some(p);
          assert PhyOf(phyNodes[i + 1]) == Some(p);
        }
      }
      if exists i :: 0 <= i < |phyNodes| && PhyOf(phyNodes[i]) == Some(p) {
        var i :| 0 <= i < |phyNodes| && PhyOf(phyNodes[i]) == Some(p);
        if i == 0 {
          assert p in head;
        } else {
          assert PhyOf(rest[i - 1]) == Some(p);
        }
      }
    }
  }

  /** The inner loop of `findHBAPorts`: the readable phys among a port's
      `phy-*` children, in order. */
  method ReadPhys(phyNodes: seq<Node>) returns (phys: seq<Phy>)
    ensures phys == ReadablePhys(phyNodes)
  {
    phys := [];
    for j := 0 to |phyNodes|
      invariant phys == ReadablePhys(phyNodes[..j])
    {
      var phy := phyNodes[j];
      ReadablePhysAppend(phyNodes[..j], phy);
      assert phyNodes[..j + 1] == phyNodes[..j] + [phy];
      var dir := SubObject(phy, "sas_phy");
      if dir.None? {
        continue;
      }
      var sasPhy := SubObject(dir.value, phy.name);
      if sasPhy.None? {
        continue;
      }
      var phyIdentifier := Read(sasPhy.value, "phy_identifier");
      if phyIdentifier.None? {
        continue;
      }
      var sasAddress := Read(sasPhy.value, "sas_address");
      if sasAddress.None? {
        continue;
      }
      phys := phys + [Phy(phyIdentifier.value, sasAddress.value)];
    }
    assert phyNodes[..|phyNodes|] == phyNodes;
  }

  /** The host's ports follow its `port-*` children one for one: each is
      named after its child, and lists a phy exactly when one of the
      child's `phy-*` children yields it. */
  lemma HostPortPhys(host: Node, i: nat, p: Phy)
    requires i < |SubObjectsFilter(host, "port-")|
    ensures |HostPorts(host)| == |SubObjectsFilter(host, "port-")|
    ensures HostPorts(host)[i].portId == SubObjectsFilter(host, "port-")[i].name
    ensures var phyNodes := SubObjectsFilter(SubObjectsFilter(host, "port-")[i], "phy-");
      p in HostPorts(host)[i].phys <==> exists j :: 0 <= j < |phyNodes| && PhyOf(phyNodes[j]) == Some(p)
  {
    ReadablePhysMembers(SubObjectsFilter(SubObjectsFilter(host, "port-")[i], "phy-"), p);
  }

  /** `findHBAPorts`: the ports of a host, built child by child. */
  method FindHbaPorts(host: Node) returns (ports: seq<HbaPort>)
    ensures ports == HostPorts(host)
  {
    var portNodes := SubObjectsFilter(host, "port-");
    ports := [];
    for i := 0 to |portNodes|
      invariant |ports| == i
      invariant forall k :: 0 <= k < i ==> ports[k] == PortOf(portNodes[k])
    {
      var portNode := portNodes[i];
      var phys := ReadPhys(SubObjectsFilter(portNode, "phy-"));
      ghost var before := ports;
      ports := ports + [HbaPort(portNode.name, phys)];
      assert forall k :: 0 <= k < i ==> ports[k] == before[k];
    }
  }

  // ------------------------------------------------------------------ shared objects

  /** A physical unit reachable over one or more device paths. The path set
      is fixed when the object is made. */
  class MultiPathDevice {
    const paths: set<Device>

    constructor (paths: set<Device>)
      ensures this.paths == paths
    {
      this.paths := paths;
    }

    /** `Devices`: every path once, in iteration order. */
    method Devices() returns (ds: seq<Device>)
      ensures |ds| == |paths|
      ensures forall d :: d in ds <==> d in paths
      ensures forall i, j :: 0 <= i < j < |ds| ==> ds[i] != ds[j]
    {
      ds := [];
      var rest := paths;
      while rest != {}
        invariant rest <= paths
        invariant forall d :: d in ds <==> d in paths && d !in rest
        invariant forall i, j :: 0 <= i < j < |ds| ==> ds[i] != ds[j]
        invariant |ds| + |rest| == |paths|
        decreases |rest|
      {
        var d :| d in rest;
        assert d !in ds;
        ds := ds + [d];
        rest := rest - {d};
      }
    }

    /** `Serial`: the serial number of some path, "" when there are none. */
    method Serial() returns (s: string)
      ensures paths == {} ==> s == ""
      ensures paths != {} ==> exists d :: d in paths && d.serial == s
    {
      if paths == {} {
        return "";
      }
      var d :| d in paths;
      return d.serial;
    }

    /** `Model`: the model of some path, "" when there are none. */
    method Model() returns (s: string)
      ensures paths == {} ==> s == ""
      ensures paths != {} ==> exists d :: d in paths && d.model == s
    {
      if paths == {} {
        return "";
      }
      var d :| d in paths;
      return d.model;
    }

    /** `Vendor`: the vendor of some path, "" when there are none. */
    method Vendor() returns (s: string)
      ensures paths == {} ==> s == ""
      ensures paths != {} ==> exists d :: d in paths && d.vendor == s
    {
      if paths == {} {
        return "";
      }
      var d :| d in paths;
      return d.vendor;
    }
  }

  /** An enclosure chassis: its own unit and, once a device has matched it,
      a slot table from slot number to the unit in that slot. */
  class Enclosure {
    const multiPathDevice: MultiPathDevice
    var slots: Option<map<int, MultiPathDevice?>>

    constructor (unit: MultiPathDevice)
      ensures multiPathDevice == unit && slots == None
    {
      multiPathDevice := unit;
      slots := None;
    }
  }
}
