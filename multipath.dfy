/** lib/device.go, `updateMultiPaths`: every device path found in a bucket
    is pointed at a shared MultiPathDevice. The code is modelled as it is
    written, including its SAS-address branch, which looks the address up in
    the serial buckets and so builds a unit without paths, and its store
    under the device's serial rather than under the key it looked up. */
module Merge {
  import opened Topology

  /** Buckets: for each key, the set of device paths that carry it. A key
      that is present is a non-nil Go map. */
  type Buckets = map<string, set<Device>>

  /** The device is in the serial bucket or the SAS-address bucket of its
      own value, so `updateMultiPaths` does not skip it. */
  predicate Matched(d: Device, bySerial: Buckets, bySas: Buckets)
    reads d
  {
    d.serial in bySerial || d.sasAddress in bySas
  }

  /** No SAS address is also used as a serial number, so the serial-bucket
      lookup of the SAS branch always misses. */
  predicate AddressesAreNotSerials(bySerial: Buckets, bySas: Buckets)
  {
    forall a :: a in bySas ==> a !in bySerial
  }

  /** The device, whose serial and SAS address are `serialOf[d]` and
      `sasOf[d]`, is in a bucket of its own value. */
  predicate Hits(d: Device, serialOf: map<Device, string>, sasOf: map<Device, string>, bySerial: Buckets, bySas: Buckets)
    requires d in serialOf && d in sasOf
  {
    serialOf[d] in bySerial || sasOf[d] in bySas
  }

  /** The merge state after the devices in `seen` have been visited:
      `units` is what each visited, non-skipped device's MultiPath now
      is, `mpds` the result map so far, and `owner` names, for each result
      key, the device whose unit was stored there last. */
  ghost predicate MergeInv(seen: set<Device>, serialOf: map<Device, string>, sasOf: map<Device, string>,
                           units: map<Device, MultiPathDevice>, mpds: map<string, MultiPathDevice>,
                           owner: map<string, Device>, bySerial: Buckets, bySas: Buckets)
  {
    && Visited(seen, serialOf, sasOf, units, bySerial, bySas)
    && Owned(serialOf, units, mpds, owner)
    && SerialUnits(serialOf, units, mpds, bySerial)
    && (AddressesAreNotSerials(bySerial, bySas) ==> SasUnits(serialOf, units, mpds, bySerial))
  }

  /** Exactly the visited devices that are in a bucket have a unit. */
  ghost predicate Visited(seen: set<Device>, serialOf: map<Device, string>, sasOf: map<Device, string>,
                          units: map<Device, MultiPathDevice>, bySerial: Buckets, bySas: Buckets)
  {
    && seen <= serialOf.Keys && seen <= sasOf.Keys
    && units.Keys <= seen
    && (forall d :: d in seen ==> (d in units <==> Hits(d, serialOf, sasOf, bySerial, bySas)))
  }

  /** Every result key is the serial of a device holding the unit stored
      there, and every device with a unit has its serial among the keys. */
  ghost predicate Owned(serialOf: map<Device, string>, units: map<Device, MultiPathDevice>,
                        mpds: map<string, MultiPathDevice>, owner: map<string, Device>)
  {
    && units.Keys <= serialOf.Keys
    && owner.Keys == mpds.Keys
    && (forall s :: s in owner ==>
          owner[s] in units && serialOf[owner[s]] == s && units[owner[s]] == mpds[s])
    && (forall d :: d in units ==> serialOf[d] in mpds)
  }

  /** Devices with a bucketed serial hold the unit stored under it, that
      unit holds the bucket, and different serials have different units. */
  ghost predicate SerialUnits(serialOf: map<Device, string>, units: map<Device, MultiPathDevice>,
                              mpds: map<string, MultiPathDevice>, bySerial: Buckets)
  {
    && units.Keys <= serialOf.Keys
    && (forall d :: d in units && serialOf[d] in bySerial ==> serialOf[d] in mpds && units[d] == mpds[serialOf[d]])
    && (forall s :: s in mpds && s in bySerial ==> mpds[s].paths == bySerial[s])
    && (forall s1, s2 :: s1 in mpds && s2 in mpds && s1 in bySerial && s2 in bySerial && s1 != s2 ==>
          mpds[s1] != mpds[s2])
  }

  /** Units stored under a serial without a bucket, and units of devices
      whose serial has no bucket, have no paths. */
  ghost predicate SasUnits(serialOf: map<Device, string>, units: map<Device, MultiPathDevice>,
                           mpds: map<string, MultiPathDevice>, bySerial: Buckets)
  {
    && units.Keys <= serialOf.Keys
    && (forall s :: s in mpds && s !in bySerial ==> mpds[s].paths == {})
    && (forall d :: d in units && serialOf[d] !in bySerial ==> units[d].paths == {})
  }

  /** Visiting a device in neither bucket changes nothing but `seen`. */
  lemma SkipKeepsInv(d: Device, seen: set<Device>, serialOf: map<Device, string>, sasOf: map<Device, string>,
                     units: map<Device, MultiPathDevice>, mpds: map<string, MultiPathDevice>,
                     owner: map<string, Device>, bySerial: Buckets, bySas: Buckets)
    requires MergeInv(seen, serialOf, sasOf, units, mpds, owner, bySerial, bySas)
    requires d in serialOf && d in sasOf && !Hits(d, serialOf, sasOf, bySerial, bySas)
    ensures MergeInv(seen + {d}, serialOf, sasOf, units, mpds, owner, bySerial, bySas)
  {
    assert Visited(seen + {d}, serialOf, sasOf, units, bySerial, bySas);
  }

  /** Storing `unit` for `d` under `d`'s serial keeps the ownership facts. */
  lemma StoreKeepsOwned(d: Device, unit: MultiPathDevice, serialOf: map<Device, string>,
                        units: map<Device, MultiPathDevice>, mpds: map<string, MultiPathDevice>,
                        owner: map<string, Device>)
    requires Owned(serialOf, units, mpds, owner) && d in serialOf
    ensures Owned(serialOf, units[d := unit], mpds[serialOf[d] := unit], owner[serialOf[d] := d])
  {
    var s := serialOf[d];
    var units', mpds', owner' := units[d := unit], mpds[s := unit], owner[s := d];
    forall s' | s' in owner'
      ensures owner'[s'] in units' && serialOf[owner'[s']] == s' && units'[owner'[s']] == mpds'[s']
    {
      if s' != s {
        assert owner[s'] != d;
      }
    }
  }

  /** The serial branch keeps the serial-bucket facts: the unit is the one
      already stored under the serial, or a new one holding the serial's
      bucket. */
  lemma SerialStoreKeepsSerialUnits(d: Device, unit: MultiPathDevice, serialOf: map<Device, string>,
                                    units: map<Device, MultiPathDevice>, mpds: map<string, MultiPathDevice>,
                                    bySerial: Buckets)
    requires SerialUnits(serialOf, units, mpds, bySerial)
    requires d in serialOf && serialOf[d] in bySerial
    requires serialOf[d] in mpds ==> unit == mpds[serialOf[d]]
    requires serialOf[d] !in mpds ==> unit.paths == bySerial[serialOf[d]] && unit !in mpds.Values
    ensures SerialUnits(serialOf, units[d := unit], mpds[serialOf[d] := unit], bySerial)
  {
    var s := serialOf[d];
    var units', mpds' := units[d := unit], mpds[s := unit];
    forall x | x in units' && serialOf[x] in bySerial
      ensures serialOf[x] in mpds' && units'[x] == mpds'[serialOf[x]]
    {
      if x != d && serialOf[x] == s {
        assert units[x] == mpds[s];
      }
    }
    forall s1, s2 | s1 in mpds' && s2 in mpds' && s1 in bySerial && s2 in bySerial && s1 != s2
      ensures mpds'[s1] != mpds'[s2]
    {
      if s1 == s && s2 in mpds && s !in mpds {
        assert mpds[s2] in mpds.Values;
      } else if s2 == s && s1 in mpds && s !in mpds {
        assert mpds[s1] in mpds.Values;
      }
    }
  }

  /** The serial branch keeps the no-paths facts, which say nothing about
      bucketed serials. */
  lemma SerialStoreKeepsSasUnits(d: Device, unit: MultiPathDevice, serialOf: map<Device, string>,
                                 units: map<Device, MultiPathDevice>, mpds: map<string, MultiPathDevice>,
                                 bySerial: Buckets)
    requires SasUnits(serialOf, units, mpds, bySerial)
    requires d in serialOf && serialOf[d] in bySerial
    ensures SasUnits(serialOf, units[d := unit], mpds[serialOf[d] := unit], bySerial)
  {
  }

  /** The serial branch keeps the merge state. */
  lemma SerialStepKeepsInv(d: Device, unit: MultiPathDevice,
                           seen: set<Device>, serialOf: map<Device, string>, sasOf: map<Device, string>,
                           units: map<Device, MultiPathDevice>, mpds: map<string, MultiPathDevice>,
                           owner: map<string, Device>, bySerial: Buckets, bySas: Buckets)
    requires MergeInv(seen, serialOf, sasOf, units, mpds, owner, bySerial, bySas)
    requires d in serialOf && d in sasOf && serialOf[d] in bySerial
    requires serialOf[d] in mpds ==> unit == mpds[serialOf[d]]
    requires serialOf[d] !in mpds ==> unit.paths == bySerial[serialOf[d]] && unit !in mpds.Values
    ensures MergeInv(seen + {d}, serialOf, sasOf, units[d := unit], mpds[serialOf[d] := unit],
                     owner[serialOf[d] := d], bySerial, bySas)
  {
    assert Visited(seen + {d}, serialOf, sasOf, units[d := unit], bySerial, bySas);
    StoreKeepsOwned(d, unit, serialOf, units, mpds, owner);
    SerialStoreKeepsSerialUnits(d, unit, serialOf, units, mpds, bySerial);
    if AddressesAreNotSerials(bySerial, bySas) {
      SerialStoreKeepsSasUnits(d, unit, serialOf, units, mpds, bySerial);
    }
  }

  /** Giving a device with an unbucketed serial a unit, stored under that
      serial, leaves the serial-bucket facts as they were. */
  lemma UnbucketedStoreKeepsSerialUnits(d: Device, unit: MultiPathDevice, serialOf: map<Device, string>,
                                        units: map<Device, MultiPathDevice>, mpds: map<string, MultiPathDevice>,
                                        bySerial: Buckets)
    requires SerialUnits(serialOf, units, mpds, bySerial)
    requires d in serialOf && serialOf[d] !in bySerial
    ensures SerialUnits(serialOf, units[d := unit], mpds[serialOf[d] := unit], bySerial)
  {
  }

  /** A unit without paths, stored for a device with an unbucketed serial,
      keeps the no-paths facts. */
  lemma EmptyStoreKeepsSasUnits(d: Device, unit: MultiPathDevice, serialOf: map<Device, string>,
                                units: map<Device, MultiPathDevice>, mpds: map<string, MultiPathDevice>,
                                bySerial: Buckets)
    requires SasUnits(serialOf, units, mpds, bySerial)
    requires d in serialOf && serialOf[d] !in bySerial && unit.paths == {}
    ensures SasUnits(serialOf, units[d := unit], mpds[serialOf[d] := unit], bySerial)
  {
  }

  /** The SAS-address branch as written keeps the merge state: the unit is
      the one stored under the address, or a new one holding the serial
      bucket indexed with the address (empty on a miss); it is stored under
      the device's serial. */
  lemma SasStepKeepsInv(d: Device, unit: MultiPathDevice,
                        seen: set<Device>, serialOf: map<Device, string>, sasOf: map<Device, string>,
                        units: map<Device, MultiPathDevice>, mpds: map<string, MultiPathDevice>,
                        owner: map<string, Device>, bySerial: Buckets, bySas: Buckets)
    requires MergeInv(seen, serialOf, sasOf, units, mpds, owner, bySerial, bySas)
    requires d in serialOf && d in sasOf && serialOf[d] !in bySerial && sasOf[d] in bySas
    requires sasOf[d] in mpds ==> unit == mpds[sasOf[d]]
    requires sasOf[d] !in mpds ==> unit.paths == (if sasOf[d] in bySerial then bySerial[sasOf[d]] else {})
    ensures MergeInv(seen + {d}, serialOf, sasOf, units[d := unit], mpds[serialOf[d] := unit],
                     owner[serialOf[d] := d], bySerial, bySas)
  {
    assert Visited(seen + {d}, serialOf, sasOf, units[d := unit], bySerial, bySas);
    StoreKeepsOwned(d, unit, serialOf, units, mpds, owner);
    UnbucketedStoreKeepsSerialUnits(d, unit, serialOf, units, mpds, bySerial);
    if AddressesAreNotSerials(bySerial, bySas) {
      assert sasOf[d] !in bySerial;
      EmptyStoreKeepsSasUnits(d, unit, serialOf, units, mpds, bySerial);
    }
  }

  /** What the merge state says once every device has been visited. */
  lemma MergeInvMeaning(seen: set<Device>, serialOf: map<Device, string>, sasOf: map<Device, string>,
                        units: map<Device, MultiPathDevice>, mpds: map<string, MultiPathDevice>,
                        owner: map<string, Device>, bySerial: Buckets, bySas: Buckets)
    requires MergeInv(seen, serialOf, sasOf, units, mpds, owner, bySerial, bySas)
    ensures forall d :: d in seen ==> (d in units <==> Hits(d, serialOf, sasOf, bySerial, bySas))
    ensures forall d :: d in seen && serialOf[d] in bySerial ==>
      serialOf[d] in mpds && units[d] == mpds[serialOf[d]] && mpds[serialOf[d]].paths == bySerial[serialOf[d]]
    ensures forall d1, d2 :: (d1 in seen && d2 in seen && serialOf[d1] in bySerial && serialOf[d2] in bySerial) ==>
      (units[d1] == units[d2] <==> serialOf[d1] == serialOf[d2])
    ensures AddressesAreNotSerials(bySerial, bySas) ==>
      forall d :: d in seen && serialOf[d] !in bySerial && sasOf[d] in bySas ==> units[d].paths == {}
    ensures forall s :: s in mpds <==> exists d :: d in seen && Hits(d, serialOf, sasOf, bySerial, bySas) && serialOf[d] == s
    ensures forall s :: s in mpds ==> owner[s] in units && serialOf[owner[s]] == s && units[owner[s]] == mpds[s]
  {
    forall d1, d2 | d1 in seen && d2 in seen && serialOf[d1] in bySerial && serialOf[d2] in bySerial
      ensures units[d1] == units[d2] <==> serialOf[d1] == serialOf[d2]
    {
      assert d1 in units && d2 in units;
    }
    forall s | s in mpds
      ensures exists d :: d in seen && Hits(d, serialOf, sasOf, bySerial, bySas) && serialOf[d] == s
    {
      assert owner[s] in seen;
    }
  }

  /** `updateMultiPaths`, over the devices in the order iteration visits
      them. */
  method UpdateMultiPaths(devices: map<string, Device>, bySerial: Buckets, bySas: Buckets)
    returns (mpds: map<string, MultiPathDevice>)
    modifies devices.Values`multiPath
    // Serial branch: the unit is the one stored under the serial, and its
    // paths are exactly the serial's bucket.
    ensures forall d :: d in devices.Values && d.serial in bySerial ==>
      d.serial in mpds && d.multiPath == mpds[d.serial] && mpds[d.serial].paths == bySerial[d.serial]
    // Devices with the same bucketed serial share one unit, and devices with
    // different bucketed serials do not.
    ensures forall d1, d2 ::
      (d1 in devices.Values && d2 in devices.Values && d1.serial in bySerial && d2.serial in bySerial) ==>
      (d1.multiPath == d2.multiPath <==> d1.serial == d2.serial)
    // SAS branch: a unit is assigned; when no address is also a serial, its
    // path set is empty (the serial buckets are indexed with the address).
    ensures forall d :: d in devices.Values && d.serial !in bySerial && d.sasAddress in bySas ==>
      d.multiPath != null && (AddressesAreNotSerials(bySerial, bySas) ==> d.multiPath.paths == {})
    // A device in neither bucket is skipped and keeps its unit.
    ensures forall d :: d in devices.Values && !Matched(d, bySerial, bySas) ==> d.multiPath == old(d.multiPath)
    // The result is keyed by the serial of each device that was not
    // skipped, and holds the unit of one such device.
    ensures forall s :: s in mpds <==> exists d :: d in devices.Values && Matched(d, bySerial, bySas) && d.serial == s
    ensures forall s :: s in mpds ==> exists d :: d in devices.Values && d.serial == s && d.multiPath == mpds[s]
  {
    ghost var all := devices.Values;
    ghost var serialOf := map d: Device | d in all :: d.serial;
    ghost var sasOf := map d: Device | d in all :: d.sasAddress;
    ghost var before := map d: Device | d in all :: d.multiPath;
    ghost var units, owner, seen;
    mpds, units, owner, seen := VisitAll(devices, bySerial, bySas, all, serialOf, sasOf, before);
    assert seen == all by {
      forall d | d in all ensures d in seen {
        var k :| k in devices.Keys && devices[k] == d;
      }
    }
    MergeInvMeaning(all, serialOf, sasOf, units, mpds, owner, bySerial, bySas);
    forall d | d in all && !Matched(d, bySerial, bySas)
      ensures d.multiPath == old(d.multiPath)
    {
      assert d !in units;
    }
    forall s | s in mpds
      ensures exists d :: d in all && d.serial == s && d.multiPath == mpds[s]
    {
      assert owner[s] in all;
    }
  }

  /** The loop of `updateMultiPaths`: every device of `all`, the devices of
      the map, is visited once, in iteration order. `serialOf`, `sasOf`
      and `before` record each device's serial, SAS address and MultiPath
      on entry; the result is described through them, the set of visited
      devices and the unit each device was given. */
  method VisitAll(devices: map<string, Device>, bySerial: Buckets, bySas: Buckets, ghost all: set<Device>,
                  ghost serialOf: map<Device, string>, ghost sasOf: map<Device, string>,
                  ghost before: map<Device, MultiPathDevice?>)
    returns (mpds: map<string, MultiPathDevice>, ghost units: map<Device, MultiPathDevice>,
             ghost owner: map<string, Device>, ghost seen: set<Device>)
    requires forall k :: k in devices ==> devices[k] in all
    requires Linked(all, serialOf, sasOf, before, map[])
    modifies all`multiPath
    ensures seen <= all && forall k :: k in devices ==> devices[k] in seen
    ensures MergeInv(seen, serialOf, sasOf, units, mpds, owner, bySerial, bySas)
    ensures Linked(all, serialOf, sasOf, before, units)
  {
    seen := {};
    units, owner := map[], map[];
    mpds := map[];
    var remaining := devices.Keys;
    while remaining != {}
      invariant remaining <= devices.Keys
      invariant seen <= all
      invariant forall k :: k in devices && k !in remaining ==> devices[k] in seen
      invariant Linked(all, serialOf, sasOf, before, units)
      invariant MergeInv(seen, serialOf, sasOf, units, mpds, owner, bySerial, bySas)
      decreases |remaining|
    {
      var k :| k in remaining;
      var device := devices[k];
      remaining := remaining - {k};
      mpds, units, owner := Visit(device, mpds, bySerial, bySas, seen, serialOf, sasOf, units, owner, all, before);
      seen := seen + {device};
    }
  }

  /** Each device of `all` has the serial and SAS address recorded for
      it, and the unit `units` gives it or else the MultiPath it had on
      entry. */
  ghost predicate Linked(all: set<Device>, serialOf: map<Device, string>, sasOf: map<Device, string>,
                         before: map<Device, MultiPathDevice?>, units: map<Device, MultiPathDevice>)
    reads all
  {
    forall d :: d in all ==>
      d in serialOf && d in sasOf && d in before && d.serial == serialOf[d] && d.sasAddress == sasOf[d]
      && d.multiPath == (if d in units then units[d] else before[d])
  }

  /** One iteration of `updateMultiPaths`: the device's identifier is its
      serial when that has a bucket, else its SAS address when that has one;
      its unit is the one stored under the identifier, or a new one; the
      unit is stored under the device's serial. A device in neither bucket
      is skipped with a warning. */
  method Visit(device: Device, mpds: map<string, MultiPathDevice>, bySerial: Buckets, bySas: Buckets,
               ghost seen: set<Device>, ghost serialOf: map<Device, string>, ghost sasOf: map<Device, string>,
               ghost units: map<Device, MultiPathDevice>, ghost owner: map<string, Device>,
               ghost all: set<Device>, ghost before: map<Device, MultiPathDevice?>)
    returns (mpds': map<string, MultiPathDevice>, ghost units': map<Device, MultiPathDevice>,
             ghost owner': map<string, Device>)
    requires device in all
    requires MergeInv(seen, serialOf, sasOf, units, mpds, owner, bySerial, bySas)
    requires Linked(all, serialOf, sasOf, before, units)
    modifies device`multiPath
    ensures MergeInv(seen + {device}, serialOf, sasOf, units', mpds', owner', bySerial, bySas)
    ensures Linked(all, serialOf, sasOf, before, units')
  {
    var uniqDevice: set<Device>;
    var id: string;
    if device.serial in bySerial {
      uniqDevice, id := bySerial[device.serial], device.serial;
    } else if device.sasAddress in bySas {
      // The serial buckets are indexed with the SAS address; a miss is a
      // nil map, whose range is empty.
      uniqDevice := if device.sasAddress in bySerial then bySerial[device.sasAddress] else {};
      id := device.sasAddress;
    } else {
      SkipKeepsInv(device, seen, serialOf, sasOf, units, mpds, owner, bySerial, bySas);
      return mpds, units, owner;
    }

    var multiPath: MultiPathDevice;
    if id !in mpds {
      multiPath := new MultiPathDevice(uniqDevice);
    } else {
      multiPath := mpds[id];
    }
    SetMultiPath(device, multiPath, all, serialOf, sasOf, before, units);
    mpds' := mpds[device.serial := multiPath];
    ghost var key := serialOf[device];
    assert mpds' == mpds[key := multiPath];
    units', owner' := units[device := multiPath], owner[key := device];
    if key in bySerial {
      SerialStepKeepsInv(device, multiPath, seen, serialOf, sasOf, units, mpds, owner, bySerial, bySas);
    } else {
      SasStepKeepsInv(device, multiPath, seen, serialOf, sasOf, units, mpds, owner, bySerial, bySas);
    }
  }

  /** `device.MultiPath = multiPath`, recorded in `units`. */
  method SetMultiPath(device: Device, multiPath: MultiPathDevice, ghost all: set<Device>,
                      ghost serialOf: map<Device, string>, ghost sasOf: map<Device, string>,
                      ghost before: map<Device, MultiPathDevice?>, ghost units: map<Device, MultiPathDevice>)
    requires device in all
    requires Linked(all, serialOf, sasOf, before, units)
    modifies device`multiPath
    ensures Linked(all, serialOf, sasOf, before, units[device := multiPath])
  {
    device.multiPath := multiPath;
  }
}
