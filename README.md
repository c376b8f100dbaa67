# sastopo core, modelled in Dafny

sastopo discovers the SAS topology of a Linux host from sysfs. It finds every
SCSI device, and for each one reads:
- its attributes;
- its serial number, from VPD page 0x80;
- the host bus adapter (HBA) and port it hangs off;
- its enclosure slot.

It then merges the paths of one physical unit into a multi-path device, and
places devices into the enclosures that share the leading part of their sysfs
path. An older listing (lib/sg.go) builds the same kind of table from the rows
of /proc/scsi/sg/devices.

The model has one module per concern:
- `Base`: Option, the error kinds, bytes and the shared constants (device types 0 and 13, the model "SA4600").
- `GoStrings`: the behaviour of Go's `strings.Split`/`Join`/`TrimSpace` and `strconv.Atoi`/`Itoa` that the code relies on.
- `Sysfs`: a sysfs object as a value (a name, readable attributes, children).
- `Util`: `itob` and `trimPoints`.
- `Vpd`: `vpd80`.
- `Hba`: the adapter, port and phy graph.
- `Topology`: the lib/device.go `Device`, `MultiPathDevice` and `Enclosure` classes, the per-device update methods, and `findHBAPorts`.
- `Merge`: `updateMultiPaths`.
- `Placement`: `updateEnclosure`.
- `Discovery`: the `ScsiDevices` loop.
- `Sg`: lib/sg.go.

Objects that the code changes in place are classes:
- `Device`, `MultiPathDevice` and `Enclosure`;
- `SgDevice`, the `Device` type of lib/sg.go.

Their methods carry `modifies` clauses and state the whole new state. The HBA
graph is never changed after it is built, so it is a value.

The code's loops are `while`/`for` loops. Each is proved against a
specification function, for example:
- `trimPoints` against `TrimStart`/`TrimStop`;
- the phy walk of `findHBAPorts` against `ReadablePhys`;
- the `ScsiDevices` loop against `Survivors`;
- the `SgDevices` loop against `Table(Processed(Accepted(scans)))`.

Go iterates a map in an unspecified order. Loops over a Go map therefore
iterate a set, and the results are stated for every order.

Two lines of `updateMultiPaths` are modelled as written:
- lib/device.go:283 takes the SAS-address branch's paths from the serial buckets (`devicesBySerial[device.SasAddress]`).
- lib/device.go:298 stores every unit under `device.Serial`, even when the unit was found by SAS address.

The contract of `Merge.UpdateMultiPaths` states the consequences. A device
found only by its SAS address gets a unit, but the unit's path set is empty
whenever no SAS address is also a serial number. The result map is keyed by
serial numbers only.

Three behaviours of the code are easy to miss; the model follows the code:
- A device whose model, vendor, revision or type cannot be read keeps type -1. `updateSerial` then reports an unknown type, and `ScsiDevices` drops the device. A missing sas_address only logs a warning and keeps the device.
- The SAS-address branch of the merge does not group the devices that share the address (see above).
- An enclosure whose model is "SA4600" never has its VPD page read. Its serial stays empty and no error is returned.

## Model

| member | source | states |
|---|---|---|
| Base.BytesToString | lib/vpd.go:50 | the string conversion keeps every byte, in order |
| GoStrings.Split | lib/device.go:197 | splitting yields at least one piece, and no piece holds the separator |
| GoStrings.SplitLength | lib/device.go:197-199 | a split has one more piece than the string has separators, which is what the eight-element path check counts |
| GoStrings.JoinSplit | lib/device.go:313-314 | joining the pieces of a split gives back the original string |
| GoStrings.SplitJoin | lib/device.go:313-314 | splitting a join of separator-free pieces gives back the pieces |
| GoStrings.SplitAppend | lib/device.go:251-252 | splitting at a separator splits the two sides independently |
| GoStrings.TrimSpace | lib/device.go:254 | the result is no longer than the input, has no white space at either end, and equals the input when the input has none at either end |
| GoStrings.TrimSpaceSlice | lib/device.go:254 | the result is a slice of the input with only white space before and after it, so nothing between the ends is lost |
| GoStrings.Atoi | lib/device.go:254 | a successful parse lies in int64 and ends in a digit; anything but an optional sign and digits is a syntax error with value 0 |
| GoStrings.AtoiItoa | lib/device.go:254 | Atoi parses back, without error, every int64 that Itoa renders |
| Sysfs.SubObject | lib/device.go:104-112 | a child with that name is found when and only when one exists |
| Sysfs.SubObjectsFilter | lib/device.go:146-151 | the result holds exactly the children whose name starts with the prefix |
| Util.Itob | lib/util.go:3-8 | true exactly when the integer is non-zero |
| Util.FirstKept | lib/util.go:15-23 | the first index holding neither 0x00 nor 0x20, with only padding before it |
| Util.EndKept | lib/util.go:25-33 | one past the last index holding neither 0x00 nor 0x20, with only padding after it |
| Util.TrimPoints | lib/util.go:12-34 | the two loops compute TrimStart and TrimStop: start <= stop <= len, both 0 for an all-padding line, and otherwise the kept slice starts and ends with non-padding and only padding is cut |
| Util.TrimPointsFacts | lib/util.go:12-34 | the trim points are ordered, are zero on an all-padding line, and otherwise bound exactly the non-padding interior |
| Util.TrimIdempotent | lib/util.go:12-34 | trimming an already trimmed slice cuts nothing more |
| Util.TrimKeepsInterior | lib/util.go:12-34 | the line is the cut padding, plus the kept slice, plus the cut padding; nothing else is lost |
| Vpd.Window | lib/vpd.go:41-47 | the read starts after the four-byte page header, returns at most 128 bytes, and returns the full 128 when the page is long enough |
| Vpd.Trimmed | lib/vpd.go:48-50 | the trimmed slice has no padding at either end, and is empty exactly when the line is all padding |
| Vpd.Pg80Serial | lib/vpd.go:41-50 | the serial is at most 128 bytes and starts and ends with neither NUL nor space |
| Vpd.Vpd80 | lib/vpd.go:35-51 | an open or read failure gives "" and that error; a page gives no error and its trimmed serial, "" when it has nothing after the header |
| Hba.HbaPort.PhyIds | lib/hba.go:45-53 | one identifier per phy, the i-th being the i-th phy's identifier |
| Hba.Hba.Port | lib/hba.go:23-30 | the first port with that id, or none exactly when no port has it |
| Hba.Hba.PhyIds | lib/hba.go:33-42 | the identifiers of every phy of every port, port by port, as many as the adapter has phys |
| Hba.PhyIdentifiersSpec | lib/hba.go:45-53 | the identifier list has one entry per phy, in phy order |
| Hba.AllPhyIdsLength | lib/hba.go:33-42 | the adapter's identifier list is as long as its total phy count |
| Hba.AllPhyIdsMembers | lib/hba.go:33-42 | an identifier is listed exactly when some phy of some port carries it |
| Hba.NoPhysNoIds | lib/hba.go:33-42 | an adapter whose ports have no phys lists no identifiers |
| Topology.Device.constructor | lib/device.go:356-360 | a new device has its name and path, type -1, and every other field empty |
| Topology.Device.UpdateSysfsAttrs | lib/device.go:71-115 | model, vendor, rev and type are read in that order; the first unreadable one returns its error and leaves it and everything after it unchanged; a missing sas_address only empties the field; block and sg name the first entry of their directories when these exist |
| Topology.Device.UpdateDriveSerial | lib/device.go:117-124 | a readable page sets the serial to its trimmed text; an open or read failure returns that error and keeps the serial |
| Topology.Device.UpdateEnclosureSerial | lib/enclosure.go:3-16 | model "SA4600" leaves the serial alone without error; any other model behaves as the drive case |
| Topology.Device.UpdateSerial | lib/device.go:126-140 | type 0 reads the drive serial, type 13 the enclosure serial, and any other type returns the unknown-type error and keeps the serial; that error comes only from an unknown type |
| Topology.Device.UpdatePathVars | lib/device.go:196-218 | a path of fewer than 8 elements is an error and changes nothing; otherwise the port is element 7 and the HBA is the table's entry for element 5, which is added from element 6, the configured label and the host's ports when it is missing; the table only grows, by at most one key, and stays keyed by PCI id |
| Topology.Device.UpdateEnclSlot | lib/device.go:222-259 | non-disks are untouched; a readable bay_identifier is the slot; otherwise the first enclosure_device entry whose name splits into two at ':' sets the slot to Atoi of its trimmed suffix and returns Atoi's error; no entry, or a name that splits otherwise, leaves the slot |
| Topology.EnclosureSlot | lib/device.go:251-255 | a file name is used exactly when it splits into two at ':', and then the slot is Atoi of the trimmed second part |
| Topology.EnclosureSlotOfNumber | lib/device.go:251-255 | an entry named enclosure_device:<n> yields slot n without error |
| Topology.SlotLabelDoesNotParse | lib/device.go:220-221 | the entry name in the code's own example, enclosure_device:Slot 1, does not parse: the slot becomes 0 and an error is returned |
| Topology.ReadablePhysMembers | lib/device.go:151-182 | a phy is kept exactly when some phy entry has a readable sas_phy object, identifier and address, and no more phys are kept than there are entries |
| Topology.ReadPhys | lib/device.go:149-183 | the inner loop collects exactly the readable phys of the port |
| Topology.HostPortPhys | lib/device.go:142-192 | one port per port-* child of the host, named after it, listing a phy exactly when one of the child's phy-* entries has a readable sas_phy object, identifier and address that give it |
| Topology.FindHbaPorts | lib/device.go:142-192 | the two loops build exactly the host's ports |
| Topology.MultiPathDevice.constructor | lib/device.go:291-293 | a new unit holds exactly the given paths |
| Topology.MultiPathDevice.Devices | lib/device.go:38-44 | the slice lists each path exactly once |
| Topology.MultiPathDevice.Serial | lib/device.go:47-52 | "" for a unit without paths, otherwise the serial of one of its paths |
| Topology.MultiPathDevice.Model | lib/device.go:55-60 | "" for a unit without paths, otherwise the model of one of its paths |
| Topology.MultiPathDevice.Vendor | lib/device.go:63-68 | "" for a unit without paths, otherwise the vendor of one of its paths |
| Merge.MergeInvMeaning | lib/device.go:275-300 | after visiting any set of devices: a visited device has a unit exactly when its serial or its address has a bucket; devices with serial buckets share a unit exactly when their serials are equal, and that unit's paths are the bucket; the result's keys are the serials of matched devices |
| Merge.Visit | lib/device.go:276-298 | one loop iteration keeps the merge invariant for the visited set grown by one device |
| Merge.VisitAll | lib/device.go:275-300 | the loop visits every device of the table and ends with the merge invariant |
| Merge.UpdateMultiPaths | lib/device.go:273-302 | every device with a serial bucket holds the unit stored under its serial, whose paths are the bucket; two such devices share a unit exactly when their serials are equal; a device matched only by address gets a unit with no paths (when no address is a serial); unmatched devices keep their unit; the keys are the serials of matched devices |
| Placement.Prefix | lib/device.go:313-314 | the prefix splits back into the first n path elements |
| Placement.PrefixAgrees | lib/device.go:313-319 | two paths have equal prefixes exactly when their first n elements agree |
| Placement.PrefixTable | lib/device.go:310-316 | a prefix is a key exactly when some member of some enclosure has that prefix, and the stored enclosure has such a member |
| Placement.Lookup | lib/device.go:319 | a missing prefix gives nil, and a present one gives its enclosure |
| Placement.PlaceInvMeaning | lib/device.go:317-329 | after placing any set of devices: each has the looked-up enclosure; a slot table is opened exactly when it was open before or a placed device names it; every entry is an old one or a placed disk's unit under its slot; every placed disk's slot is present; no entry present before is removed |
| Placement.Visit | lib/device.go:318-328 | one iteration places one device as Place says, and keeps the placement invariant |
| Placement.PlaceAll | lib/device.go:317-329 | the loop places every device of the table and keeps the placement invariant |
| Placement.UpdateEnclosure | lib/device.go:309-330 | a device gets an enclosure exactly when one of that enclosure's members shares its first n path elements; devices with the same first n path elements get the same enclosure, the one the prefix table built before the loop holds; slot tables are opened only for enclosures that get a device; every slot entry is old or is the unit of a disk placed there; every placed disk's slot is filled; no old entry is removed, and it keeps its unit unless a disk placed at that slot overwrote it |
| Discovery.Survivors | lib/device.go:349-372 | the devices kept are those with a device object and a known type, each under the name of an entry that describes it |
| Discovery.SurvivorsStep | lib/device.go:349-372 | one entry adds its device, removes its name when the type is unknown, or changes nothing when it has no device object |
| Discovery.SurvivorsOfUniqueNames | lib/device.go:349-372 | with unique names, an entry survives exactly when it has a device object of known type, and it survives with its own sysfs data |
| Discovery.AddTo | lib/device.go:384-397 | an empty key leaves the buckets alone; otherwise the device joins the key's bucket, created when missing, and no other bucket changes |
| Discovery.Describe | lib/device.go:356-372 | a new device with the entry's name and path gets the type, model, vendor, rev, SAS address, block and sg names and serial that sysfs gives it (each only when the reads before it succeed), no HBA, port, slot, unit or enclosure; it is unknown exactly when the type is neither 0 nor 13 |
| Discovery.Locate | lib/device.go:373-381 | the HBA table gains the entry's HBA under path element 5 only when that id is missing; a path of at least 8 elements gives the device that table entry and port element 7, a shorter one leaves both; a disk's slot is the bay_identifier, else the one the first enclosure_device entry gives, else unchanged; other types keep their slot |
| Discovery.Discover | lib/device.go:356-381 | a new device of known type has every field sysfs gives it (Made), its slot, and its HBA and port from the table (OnHba); one of unknown type has no HBA or port; the table gains the entry's HBA exactly when it is of known type with a long enough path and a new bus id |
| Discovery.PathHba | lib/device.go:197-212 | an HBA is built exactly for paths of at least 8 elements, under bus id element 5 and with the configured label for it |
| Discovery.AddHba | lib/device.go:201-213 | the get-or-insert never replaces an entry, adds at most the offered bus id, and stores the offered HBA when its id was missing |
| Discovery.HbaTable | lib/device.go:342-381 | the HBA table after any prefix of the entries is keyed by bus id |
| Discovery.HbaTableFirst | lib/device.go:342-381 | a bus id is in the HBA table exactly when some entry of known type with a long enough path names it, and its HBA is the one the first such entry builds |
| Discovery.Step | lib/device.go:350-402 | one iteration keeps the loop invariant: table, buckets and enclosure set hold the survivors so far, every device made has its sysfs fields and its HBA and port, and the HBA table is the one the entries so far build |
| Discovery.Collect | lib/device.go:349-403 | the loop ends with every table device filled in and located (Filled), no table device yet holding a MultiPath unit or an enclosure (Unassigned, Unenclosed), the HBA table of all entries, and buckets and enclosure set over the survivors |
| Discovery.MergeUnits | lib/device.go:404-405 | over the finished table (Merged, PathsShareSerial): every device with a serial holds the unit stored under it, with paths sharing the serial; a device with only an address gets a unit; a device with neither is skipped and keeps its nil unit; the keys are the serials of devices with a serial or address; with unique names, units and enclosure set hold table devices only; no device is given an enclosure (Unenclosed) |
| Discovery.AssignUnits | lib/device.go:404-405 | as MergeUnits, including the nil unit of a device with neither a serial nor an address and the nil enclosure of every device, and every table device keeps its sysfs fields, HBA and port (Filled), and the enclosure set its types: the merge changes only the units |
| Discovery.MatchedOfTable | lib/device.go:279-288 | a table device finds a bucket exactly when its serial or its SAS address is non-empty |
| Discovery.UnitKeys | lib/device.go:298 | the result's keys are the serials of the table's devices that have a serial or an address |
| Discovery.NothingOutside | lib/device.go:384-402 | with unique entry names, the enclosure set and every unit's paths hold table devices only, and a unit's paths are exactly the table's devices of its serial |
| Discovery.ScsiDevices | lib/device.go:337-405 | the table holds exactly the survivors, each with every field sysfs gives it, its slot, and the HBA of its bus id and its port (Filled); the HBA table holds the first HBA built for each bus id (HbaTable); the enclosure set holds exactly the enclosures; every device with a serial holds the unit stored under it, which is among its paths and all of whose paths share the serial; a device with only an address still gets a unit; a device with neither a serial nor an address is skipped (lib/device.go:285-287) and has a nil MultiPath; no device has an enclosure yet; the result's keys are the serials of devices that have a serial or an address |
| Sg.SysOf | lib/sg.go:41 | a device that sysfs does not list has no attributes and no page to open |
| Sg.ReadAttrs | lib/sg.go:40-66 | the attributes are read exactly when model, vendor, rev and sas_address are all readable; otherwise the first unreadable one is named |
| Sg.SgSerial | lib/sg.go:77-91 | the unknown-type error, naming the row's `ID` field and the type, comes exactly when the type is neither 0 nor 13; a readable page gives no error and its serial, except for an "SA4600" enclosure; open and read failures give their errors and no serial |
| Sg.SgDevice.constructor | lib/sg.go:109-119 | a new device holds the row's nine values, busy and online as booleans, and empty strings |
| Sg.SgDevice.UpdateSysfsAttrs | lib/sg.go:40-66 | the four attributes are stored only when all are readable; otherwise the first unreadable one is the error and nothing changes |
| Sg.SgDevice.UpdateDriveSerial | lib/sg.go:68-75 | a readable page sets the serial; an open or read failure returns that error and keeps the serial |
| Sg.SgDevice.UpdateEnclosureSerial | lib/enclosure.go:3-16 | model "SA4600" leaves the serial without error; any other model behaves as the drive case |
| Sg.SgDevice.UpdateSerial | lib/sg.go:77-91 | the error and the new serial are those SgSerial gives for the device's number, type and model |
| Sg.FillMeaning | lib/sg.go:109-125 | a finished device holds its row's values; it holds the sysfs attributes when all are readable, and otherwise empty ones and no serial; a failing row leaves no serial |
| Sg.Accepted | lib/sg.go:103-108 | the rows used are the leading scans that read nine fields, and the listing stops at the first that does not |
| Sg.LaterScansIgnored | lib/sg.go:103-108 | nothing after a failed scan is read |
| Sg.FirstFailure | lib/sg.go:120-125 | every row before the returned index completes without error, and the row at it fails |
| Sg.Processed | lib/sg.go:103-127 | the rows handled are those up to and including the first failing one |
| Sg.Table | lib/sg.go:109 | the map has an entry for each `ID` field some row carries, keyed by that value |
| Sg.TableHoldsLast | lib/sg.go:109 | a later row with the same `ID` replaces an earlier one |
| Sg.NewDevice | lib/sg.go:109-122 | a fresh device from the row with its attributes read, and an error exactly when an attribute is unreadable |
| Sg.MakeDevice | lib/sg.go:109-125 | a fresh device filled as Fill says, with the error RowError gives |
| Sg.SgDevices | lib/sg.go:94-130 | an unopenable file gives an empty map and the open error; otherwise the map holds one distinct device per `ID` field among the handled rows, filled from the last row with that `ID`; the error is the failing row's, else the close error, else none |

## Left out

- Reading sysfs, opening and reading files, and `filepath.Glob` are not performed. The sysfs objects (`Sysfs.Node`), the VPD page (`Vpd.Pg80File`), the listing of `enclosure_device:*` entries and the rows of /proc/scsi/sg/devices (`Sg.SgFile`) are parameters. A `Glob` error is not modelled: the listing is taken as given.
- `Enclosures(EnclMap)` is not part of this model. `Discovery.ScsiDevices` therefore stops after the merge, and returns the enclosure devices (`EnclMap`) rather than the `Enclosure` objects. `Placement.UpdateEnclosure` is modelled on its own, taking the enclosure set as a parameter.
- The `Enclosure` type's definition is not part of this model. Its two fields are modelled as the code uses them, and the optional slot table is `None` while the Go map is nil.
- Log output (`log.Printf`) is left out. It changes no state.
- Go's map iteration order is unspecified, so maps iterated by the code are sets, and every contract holds for any order. Maps keyed by pointers (`map[*Device]bool`, `map[*HBAPort]bool`) are sets of objects, or sequences where the order of a result slice matters (`Hba`).
- `HBA`, `HBAPort` and `Phy` are values, not pointers. The code never changes them after building them, so only their identity is lost.
- `Topology.Device.UpdateSysfsAttrs` requires each `block` and `scsi_generic` directory that exists to have an entry, because the code indexes `SubObjects()[0]` and panics otherwise.
- `Placement.UpdateEnclosure` requires every path to have at least n elements, because the code slices `path[0:n]` and panics otherwise.
- `GoStrings.TrimSpace` trims ASCII white space only. Go's `strings.TrimSpace` also trims multi-byte UTF-8 spaces such as U+00A0: for an entry name ending in "12" followed by the bytes 0xC2 0xA0, Go gets slot 12, and the model gets Atoi's syntax error.
- `GoStrings.Atoi` is weaker than `strconv.Atoi` in one case. A digit string that overflows int64 and then contains a non-digit is treated as a syntax error (value 0). Go returns the clamped bound with a range error. Both report failure.
- `Util.TrimPoints` and `Util.Itob` each model two identical definitions once: `trimPoints` in lib/util.go and lib/vpd.go, and `itob` in lib/util.go and lib/sg.go.
- `updateEnclosureSerial` in lib/enclosure.go is modelled on both device types. It is `Topology.Device.UpdateEnclosureSerial` and `Sg.SgDevice.UpdateEnclosureSerial`.
- The strings Go reads from sysfs are taken as given: there is no trailing-newline handling or encoding. Go's 64-bit `int` is unbounded except where `strconv.Atoi` clamps it.
- In lib/sg.go, an error while filling a device returns before `file.Close()`. The model likewise reports no close error in that case.
