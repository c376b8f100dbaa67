/** lib/sg.go: the older device listing built from the rows of
    /proc/scsi/sg/devices. Each row becomes a device, filled in from sysfs
    through the row's `ID` field, which the code uses as an sg number.
    lib/sg.go declares a `Device` type of its own; it is called SgDevice
    here. */
module Sg {
  import opened Base
  import opened Util
  import opened Sysfs
  import opened Vpd
  import opened Hba

  /** One row of /proc/scsi/sg/devices: nine tab-separated integers. */
  datatype SgRow = SgRow(host: int, chan: int, id: int, lun: int, devType: int,
                         opens: int, qdepth: int, busy: int, online: int)

  /** One `ScanRecord` call: an error (io.EOF included), or the number of
      fields scanned together with the values of the nine variables. */
  datatype Scan = ScanFailed | Scanned(n: int, row: SgRow)

  /** The devices file: it cannot be opened, or it yields these scans and
      then its `Close` fails or not. */
  datatype SgFile = CannotOpen | Opened(scans: seq<Scan>, closeFails: bool)

  /** What sysfs holds for the row `ID` `id`: the `device` node under
      /sys/class/scsi_generic/sg<id>, and its `vpd_pg80` file. */
  datatype SgSys = SgSys(node: Node, page: Pg80File)

  /** The sysfs view of sg device `id`; a device sysfs does not list has no
      readable attribute and no page to open. */
  function SysOf(sysfs: map<int, SgSys>, id: int): (s: SgSys)
    ensures id !in sysfs ==> s.node.attrs == map[] && s.page.Unopenable?
    ensures id in sysfs ==> s == sysfs[id]
  {
    if id in sysfs then sysfs[id] else SgSys(Node("device", map[], map[], []), Unopenable)
  }

  // ---------------------------------------------------------------- attributes

  /** The four string attributes `updateSysfsAttrs` sets. */
  datatype Attrs = Attrs(model: string, vendor: string, rev: string, sasAddress: string)

  /** The outcome of reading model, vendor, rev and sas_address in that
      order: all four values, or the name of the first one that failed. */
  datatype AttrRead = AttrsOk(attrs: Attrs) | AttrMissing(name: string)

  function ReadAttrs(node: Node): (r: AttrRead)
    ensures r.AttrsOk? <==>
      Read(node, "model").Some? && Read(node, "vendor").Some? && Read(node, "rev").Some?
      && Read(node, "sas_address").Some?
    ensures r.AttrsOk? ==>
      r.attrs == Attrs(Read(node, "model").value, Read(node, "vendor").value, Read(node, "rev").value,
                       Read(node, "sas_address").value)
    ensures r.AttrMissing? ==> r.name in ["model", "vendor", "rev", "sas_address"] && Read(node, r.name).None?
  {
    match (Read(node, "model"), Read(node, "vendor"), Read(node, "rev"), Read(node, "sas_address"))
    case (None, _, _, _) => AttrMissing("model")
    case (Some(_), None, _, _) => AttrMissing("vendor")
    case (Some(_), Some(_), None, _) => AttrMissing("rev")
    case (Some(_), Some(_), Some(_), None) => AttrMissing("sas_address")
    case (Some(m), Some(v), Some(r), Some(a)) => AttrsOk(Attrs(m, v, r, a))
  }

  // ---------------------------------------------------------------- serial number

  /** What `updateSerial` does: the serial number it stores (None when it
      stores nothing) and the error it returns. */
  datatype SerialStep = SerialStep(serial: Option<string>, err: Option<Error>)

  /** `updateSerial` for a device whose `ID` field is `id`, of type
      `devType` and model `model`: disks read page 0x80; enclosures read it
      too unless their model is the SA4600; every other type is
      errUnknownType. */
  function SgSerial(id: int, devType: int, model: string, page: Pg80File): (r: SerialStep)
    ensures r.serial.Some? <==> r.err.None? && !(devType == EnclosureType && model == NoPg80Model)
    ensures r.err == Some(UnknownSgType(id, devType)) <==> devType != DiskType && devType != EnclosureType
    ensures (devType == DiskType || devType == EnclosureType) && page.Pg80? ==> r.err.None?
    ensures (devType == DiskType || (devType == EnclosureType && model != NoPg80Model)) && page.Pg80? ==>
      r.serial == Some(Pg80Serial(page.data))
    ensures (devType == DiskType || (devType == EnclosureType && model != NoPg80Model)) && page.Unopenable? ==>
      r == SerialStep(None, Some(OpenFailed))
    ensures (devType == DiskType || (devType == EnclosureType && model != NoPg80Model)) && page.Unreadable? ==>
      r == SerialStep(None, Some(ReadFailed))
  {
    if devType == DiskType || (devType == EnclosureType && model != NoPg80Model) then
      match page
      case Pg80(data) => SerialStep(Some(Pg80Serial(data)), None)
      case Unopenable => SerialStep(None, Some(OpenFailed))
      case Unreadable => SerialStep(None, Some(ReadFailed))
    else if devType == EnclosureType then SerialStep(None, None)
    else SerialStep(None, Some(UnknownSgType(id, devType)))
  }

  // ---------------------------------------------------------------- the device

  /** The fields of an SgDevice that the listing fills in. */
  datatype SgView = SgView(host: int, chan: int, id: int, lun: int, devType: int, opens: int, qdepth: int,
                           busy: bool, online: bool, vendor: string, model: string, rev: string,
                           sasAddress: string, serial: string)

  /** A SCSI generic device of /proc/scsi/sg/devices. */
  class SgDevice {
    var host: int
    var chan: int
    var id: int
    var lun: int
    var devType: int
    var opens: int
    var qdepth: int
    var busy: bool
    var online: bool
    var vendor: string
    var model: string
    var rev: string
    var sasAddress: string
    var serial: string
    var slot: int
    var enclosure: SgDevice?
    var hba: Option<Hba>

    function View(): SgView
      reads this
    {
      SgView(host, chan, id, lun, devType, opens, qdepth, busy, online, vendor, model, rev, sasAddress, serial)
    }

    /** `&Device{Host: Host, ..., Busy: itob(Busy), Online: itob(Online)}`:
        the seven counters are copied, the two flags converted, and every
        other field has its zero value. */
    constructor (row: SgRow)
      ensures View() == SgView(row.host, row.chan, row.id, row.lun, row.devType, row.opens, row.qdepth,
                               row.busy != 0, row.online != 0, "", "", "", "", "")
      ensures slot == 0 && enclosure == null && hba == None
    {
      host, chan, id, lun := row.host, row.chan, row.id, row.lun;
      devType, opens, qdepth := row.devType, row.opens, row.qdepth;
      busy, online := Itob(row.busy), Itob(row.online);
      vendor, model, rev, sasAddress, serial := "", "", "", "", "";
      slot, enclosure, hba := 0, null, None;
    }

    /** `updateSysfsAttrs`: all four attributes are read before any field is
        set, so a failed read leaves all four fields as they were. */
    method UpdateSysfsAttrs(node: Node) returns (err: Option<Error>)
      modifies this`model, this`vendor, this`rev, this`sasAddress
      ensures ReadAttrs(node).AttrMissing? ==>
        err == Some(AttributeUnreadable(ReadAttrs(node).name))
        && model == old(model) && vendor == old(vendor) && rev == old(rev) && sasAddress == old(sasAddress)
      ensures ReadAttrs(node).AttrsOk? ==>
        err == None && Attrs(model, vendor, rev, sasAddress) == ReadAttrs(node).attrs
    {
      var m := Read(node, "model");
      if m.None? {
        return Some(AttributeUnreadable("model"));
      }
      var v := Read(node, "vendor");
      if v.None? {
        return Some(AttributeUnreadable("vendor"));
      }
      var r := Read(node, "rev");
      if r.None? {
        return Some(AttributeUnreadable("rev"));
      }
      var a := Read(node, "sas_address");
      if a.None? {
        return Some(AttributeUnreadable("sas_address"));
      }
      model, vendor, rev, sasAddress := m.value, v.value, r.value, a.value;
      return None;
    }

    /** `updateDriveSerial`: the serial number from page 0x80. */
    method UpdateDriveSerial(page: Pg80File) returns (err: Option<Error>)
      modifies this`serial
      ensures page.Pg80? ==> err == None && serial == Pg80Serial(page.data)
      ensures page.Unopenable? ==> err == Some(OpenFailed) && serial == old(serial)
      ensures page.Unreadable? ==> err == Some(ReadFailed) && serial == old(serial)
    {
      var sn, e := Vpd80(page);
      if e.Some? {
        return e;
      }
      serial := sn;
      return None;
    }

    /** `updateEnclosureSerial` (lib/enclosure.go) on this device type:
        model "SA4600" keeps the serial; every other model reads page 0x80. */
    method UpdateEnclosureSerial(page: Pg80File) returns (err: Option<Error>)
      modifies this`serial
      ensures model == NoPg80Model ==> err == None && serial == old(serial)
      ensures model != NoPg80Model && page.Pg80? ==> err == None && serial == Pg80Serial(page.data)
      ensures model != NoPg80Model && page.Unopenable? ==> err == Some(OpenFailed) && serial == old(serial)
      ensures model != NoPg80Model && page.Unreadable? ==> err == Some(ReadFailed) && serial == old(serial)
    {
      if model == NoPg80Model {
        return None;
      }
      var sn, e := Vpd80(page);
      if e.Some? {
        return e;
      }
      serial := sn;
      return None;
    }

    /** `updateSerial`: type 0 reads the drive serial, type 13 the
        enclosure serial, any other type is errUnknownType naming the
        `ID` field and the type. */
    method UpdateSerial(page: Pg80File) returns (err: Option<Error>)
      modifies this`serial
      ensures err == SgSerial(id, devType, model, page).err
      ensures serial == GetSome(SgSerial(id, devType, model, page).serial, old(serial))
    {
      if devType == DiskType {
        err := UpdateDriveSerial(page);
      } else if devType == EnclosureType {
        err := UpdateEnclosureSerial(page);
      } else {
        err := Some(UnknownSgType(id, devType));
      }
    }
  }

  function GetSome<T>(o: Option<T>, default: T): T
  {
    if o.Some? then o.value else default
  }

  // ---------------------------------------------------------------- one row

  /** The fields a device made from `row` ends with: the row's values,
      then, when all four attributes can be read, those and the serial
      number `updateSerial` stores. */
  function Fill(row: SgRow, sys: SgSys): SgView
  {
    var made := SgView(row.host, row.chan, row.id, row.lun, row.devType, row.opens, row.qdepth,
                       Itob(row.busy), Itob(row.online), "", "", "", "", "");
    match ReadAttrs(sys.node)
    case AttrMissing(_) => made
    case AttrsOk(a) =>
      var step := SgSerial(row.id, row.devType, a.model, sys.page);
      made.(model := a.model, vendor := a.vendor, rev := a.rev, sasAddress := a.sasAddress,
            serial := GetSome(step.serial, ""))
  }

  /** The error processing `row` ends with, if any. */
  function RowError(row: SgRow, sys: SgSys): Option<Error>
  {
    match ReadAttrs(sys.node)
    case AttrMissing(name) => Some(AttributeUnreadable(name))
    case AttrsOk(a) => SgSerial(row.id, row.devType, a.model, sys.page).err
  }

  /** A device's fields come from its row and its sysfs entry: the counters
      verbatim, the flags as `itob`, the attributes only when all four are
      readable, and a serial number only when it was resolved. */
  lemma FillMeaning(row: SgRow, sys: SgSys)
    ensures var v := Fill(row, sys);
      v.host == row.host && v.chan == row.chan && v.id == row.id && v.lun == row.lun
      && v.devType == row.devType && v.opens == row.opens && v.qdepth == row.qdepth
      && (v.busy <==> row.busy != 0) && (v.online <==> row.online != 0)
      && (ReadAttrs(sys.node).AttrMissing? ==> v.model == "" && v.vendor == "" && v.rev == "" && v.sasAddress == "" && v.serial == "")
      && (ReadAttrs(sys.node).AttrsOk? ==> Attrs(v.model, v.vendor, v.rev, v.sasAddress) == ReadAttrs(sys.node).attrs)
      && (RowError(row, sys).Some? ==> v.serial == "")
  {
  }

  // ---------------------------------------------------------------- the listing

  /** A scan the loop accepts: no error and exactly nine fields. */
  predicate Accepts(scan: Scan)
  {
    scan.Scanned? && scan.n == 9
  }

  /** The rows the loop reads: those of the scans before the first scan it
      does not accept. */
  function Accepted(scans: seq<Scan>): (rows: seq<SgRow>)
    ensures |rows| <= |scans|
    ensures forall i :: 0 <= i < |rows| ==> scans[i] == Scanned(9, rows[i])
    ensures |rows| < |scans| ==> !Accepts(scans[|rows|])
    decreases |scans|
  {
    if scans == [] || !Accepts(scans[0]) then []
    else [scans[0].row] + Accepted(scans[1..])
  }

  /** Scans after one the loop does not accept are never read. */
  lemma {:induction false} LaterScansIgnored(scans: seq<Scan>, i: nat, more: seq<Scan>)
    requires i < |scans| && !Accepts(scans[i])
    ensures Accepted(scans + more) == Accepted(scans)
    decreases i
  {
    if Accepts(scans[0]) {
      assert (scans + more)[1..] == scans[1..] + more;
      LaterScansIgnored(scans[1..], i - 1, more);
    }
  }

  /** The index of the first row whose processing fails, or the number of
      rows when none does. */
  function FirstFailure(rows: seq<SgRow>, sysfs: map<int, SgSys>): (k: nat)
    ensures k <= |rows|
    ensures forall i :: 0 <= i < k ==> RowError(rows[i], SysOf(sysfs, rows[i].id)).None?
    ensures k < |rows| ==> RowError(rows[k], SysOf(sysfs, rows[k].id)).Some?
    decreases |rows|
  {
    if rows == [] || RowError(rows[0], SysOf(sysfs, rows[0].id)).Some? then 0
    else 1 + FirstFailure(rows[1..], sysfs)
  }

  /** The rows processed: up to and including the first that fails. */
  function Processed(rows: seq<SgRow>, sysfs: map<int, SgSys>): (done: seq<SgRow>)
    ensures done <= rows
    ensures |done| == if FirstFailure(rows, sysfs) < |rows| then FirstFailure(rows, sysfs) + 1 else |rows|
  {
    var f := FirstFailure(rows, sysfs);
    if f < |rows| then rows[..f + 1] else rows
  }

  /** The table the rows build: each row under its own id, a later row
      replacing an earlier one with the same id. */
  function Table(rows: seq<SgRow>): (t: map<int, SgRow>)
    ensures forall id :: id in t <==> exists i :: 0 <= i < |rows| && rows[i].id == id
    ensures forall id :: id in t ==> t[id].id == id
    decreases |rows|
  {
    if rows == [] then map[]
    else
      var earlier := rows[..|rows| - 1];
      var last := rows[|rows| - 1];
      assert forall i :: 0 <= i < |earlier| ==> earlier[i] == rows[i];
      Table(earlier)[last.id := last]
  }

  /** The row stored under an id is the last row with that id. */
  lemma {:induction false} TableHoldsLast(rows: seq<SgRow>, i: nat)
    requires i < |rows|
    requires forall j :: i < j < |rows| ==> rows[j].id != rows[i].id
    ensures rows[i].id in Table(rows) && Table(rows)[rows[i].id] == rows[i]
    decreases |rows|
  {
    var earlier := rows[..|rows| - 1];
    if i < |rows| - 1 {
      assert earlier[i] == rows[i];
      TableHoldsLast(earlier, i);
    }
  }

  /** A later row is entered over any earlier row with the same id. */
  lemma TableAppend(rows: seq<SgRow>, i: nat)
    requires i < |rows|
    ensures Table(rows[..i + 1]) == Table(rows[..i])[rows[i].id := rows[i]]
  {
    assert rows[..i + 1][..i] == rows[..i];
  }

  /** The fields a device made from `row` has once its attributes have
      been read from `node`. */
  function Attributed(row: SgRow, node: Node): SgView
  {
    var made := SgView(row.host, row.chan, row.id, row.lun, row.devType, row.opens, row.qdepth,
                       Itob(row.busy), Itob(row.online), "", "", "", "", "");
    match ReadAttrs(node)
    case AttrMissing(_) => made
    case AttrsOk(a) => made.(model := a.model, vendor := a.vendor, rev := a.rev, sasAddress := a.sasAddress)
  }

  /** The first two steps for one accepted row: a new device made from the
      row, with its attributes read. */
  method NewDevice(row: SgRow, node: Node) returns (d: SgDevice, err: Option<Error>)
    ensures fresh(d)
    ensures d.View() == Attributed(row, node)
    ensures err.None? <==> ReadAttrs(node).AttrsOk?
    ensures ReadAttrs(node).AttrMissing? ==> err == Some(AttributeUnreadable(ReadAttrs(node).name))
  {
    d := new SgDevice(row);
    err := d.UpdateSysfsAttrs(node);
  }

  /** The body of the loop for one accepted row: a new device made from
      the row and filled in from sysfs, with the error that stops the
      listing, if any. */
  method MakeDevice(row: SgRow, sys: SgSys) returns (d: SgDevice, err: Option<Error>)
    ensures fresh(d)
    ensures d.View() == Fill(row, sys) && err == RowError(row, sys)
  {
    d, err := NewDevice(row, sys.node);
    if err.Some? {
      return;
    }
    err := d.UpdateSerial(sys.page);
  }

  /** The devices of `devices` carry the fields their rows in `t` and
      their sysfs entries give them. */
  ghost predicate Filled(devices: map<int, SgDevice>, t: map<int, SgRow>, sysfs: map<int, SgSys>)
    reads devices.Values
  {
    && devices.Keys == t.Keys
    && forall id :: id in devices ==> devices[id].View() == Fill(t[id], SysOf(sysfs, id))
  }

  /** No device is stored under two ids. */
  predicate Distinct(devices: map<int, SgDevice>)
  {
    forall a, b :: a in devices && b in devices && a != b ==> devices[a] != devices[b]
  }

  /** Storing a device made from `row` under the row's id keeps the table
      filled in. */
  lemma FilledAdd(devices: map<int, SgDevice>, t: map<int, SgRow>, sysfs: map<int, SgSys>, row: SgRow, d: SgDevice)
    requires Filled(devices, t, sysfs) && d.View() == Fill(row, SysOf(sysfs, row.id))
    ensures Filled(devices[row.id := d], t[row.id := row], sysfs)
  {
  }

  /** Storing a device that is not yet in the table keeps the devices distinct. */
  lemma DistinctAdd(devices: map<int, SgDevice>, id: int, d: SgDevice)
    requires Distinct(devices) && d !in devices.Values
    ensures Distinct(devices[id := d])
  {
    var devices' := devices[id := d];
    forall a, b | a in devices' && b in devices' && a != b
      ensures devices'[a] != devices'[b]
    {
      if a != id && b != id {
        assert devices'[a] == devices[a] && devices'[b] == devices[b];
      } else if a == id {
        assert devices[b] in devices.Values;
      } else {
        assert devices[a] in devices.Values;
      }
    }
  }

  /** `SgDevices(path)`: open the file; scan rows until a scan fails or does
      not have nine fields; store a new device per row under its id and fill
      it in from sysfs, returning the table at once, failing device
      included, when that fails; close the file at the end. */
  method SgDevices(file: SgFile, sysfs: map<int, SgSys>) returns (devices: map<int, SgDevice>, err: Option<Error>)
    ensures file.CannotOpen? ==> devices == map[] && err == Some(OpenFailed)
    ensures file.Opened? ==>
      var rows := Accepted(file.scans);
      var done := Processed(rows, sysfs);
      && devices.Keys == Table(done).Keys
      && (forall id :: id in devices ==> devices[id].View() == Fill(Table(done)[id], SysOf(sysfs, id)))
      && (forall a, b :: a in devices && b in devices && a != b ==> devices[a] != devices[b])
      && err == (if |done| > 0 && RowError(done[|done| - 1], SysOf(sysfs, done[|done| - 1].id)).Some?
                 then RowError(done[|done| - 1], SysOf(sysfs, done[|done| - 1].id))
                 else if file.closeFails then Some(CloseFailed) else None)
  {
    if file.CannotOpen? {
      return map[], Some(OpenFailed);
    }
    var scans := file.scans;
    ghost var rows := Accepted(scans);
    ghost var f := FirstFailure(rows, sysfs);
    devices := map[];
    var i := 0;
    while i < |scans|
      invariant 0 <= i <= |rows| && i <= f
      invariant Filled(devices, Table(rows[..i]), sysfs) && Distinct(devices)
    {
      var scan := scans[i];
      if scan.ScanFailed? || scan.n != 9 {
        break;
      }
      var row := scan.row;
      TableAppend(rows, i);
      var d;
      d, err := MakeDevice(row, SysOf(sysfs, row.id));
      FilledAdd(devices, Table(rows[..i]), sysfs, row, d);
      DistinctAdd(devices, row.id, d);
      devices := devices[row.id := d];
      if err.Some? {
        assert f == i;
        assert Processed(rows, sysfs) == rows[..i + 1];
        return;
      }
      i := i + 1;
    }
    assert i == |rows| && f == |rows|;
    assert rows[..i] == rows;
    err := if file.closeFails then Some(CloseFailed) else None;
  }
}
