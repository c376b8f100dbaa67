/** lib/device.go, `updateEnclosure`: each device is given the enclosure one
    of whose member paths agrees with the device's sysfs path on the first
    `n` elements, and each disk is entered in its enclosure's slot table.
    Which enclosure wins a shared prefix, and which disk wins a shared slot,
    depends on Go's map iteration order; the contracts allow any order. */
module Placement {
  import opened Base
  import opened GoStrings
  import opened Topology

  /** The first `n` elements of a sysfs path, joined again with '/'. Go
      panics when the path has fewer than `n` elements. */
  function Prefix(path: string, n: nat): (r: string)
    requires n <= |PathElements(path)|
    ensures n == 0 ==> r == ""
    ensures n > 0 ==> Split(r, '/') == PathElements(path)[..n]
  {
    var p := PathElements(path)[..n];
    if n == 0 then "" else SplitJoin(p, '/'); Join(p, '/')
  }

  /** Two paths have the same prefix exactly when they agree on the first
      `n` elements. */
  lemma PrefixAgrees(a: string, b: string, n: nat)
    requires n <= |PathElements(a)| && n <= |PathElements(b)|
    ensures Prefix(a, n) == Prefix(b, n) <==> PathElements(a)[..n] == PathElements(b)[..n]
  {
    if n > 0 && Prefix(a, n) == Prefix(b, n) {
      assert Split(Prefix(a, n), '/') == Split(Prefix(b, n), '/');
    }
  }

  /** Every member path of every enclosure has at least `n` elements. */
  predicate MembersReach(enclosures: set<Enclosure>, n: nat)
  {
    forall e, d :: e in enclosures && d in e.multiPathDevice.paths ==> n <= |PathElements(d.path)|
  }

  /** Some member path of `e` has prefix `p`. */
  ghost predicate Member(e: Enclosure, n: nat, p: string)
  {
    exists d :: d in e.multiPathDevice.paths && n <= |PathElements(d.path)| && Prefix(d.path, n) == p
  }

  /** Some enclosure has a member path with prefix `p`. */
  ghost predicate Claimed(enclosures: set<Enclosure>, n: nat, p: string)
  {
    exists e :: e in enclosures && Member(e, n, p)
  }

  /** The first loop of `updateEnclosure`: for every member path of every
      enclosure, its prefix is mapped to that enclosure, the later write
      winning. */
  method PrefixTable(enclosures: set<Enclosure>, n: nat) returns (byPrefix: map<string, Enclosure>)
    requires MembersReach(enclosures, n)
    ensures forall p :: p in byPrefix <==> Claimed(enclosures, n, p)
    ensures forall p :: p in byPrefix ==> byPrefix[p] in enclosures && Member(byPrefix[p], n, p)
  {
    byPrefix := map[];
    var todo := enclosures;
    ghost var done: set<Enclosure> := {};
    while todo != {}
      invariant todo <= enclosures && done == enclosures - todo
      invariant forall p :: p in byPrefix <==> exists e :: e in done && Member(e, n, p)
      invariant forall p :: p in byPrefix ==> byPrefix[p] in done && Member(byPrefix[p], n, p)
      decreases |todo|
    {
      var e :| e in todo;
      var members := e.multiPathDevice.paths;
      var rest := members;
      ghost var earlier := byPrefix;
      while rest != {}
        invariant rest <= members
        invariant forall p :: p in byPrefix <==>
          (p in earlier || exists d :: d in members && d !in rest && n <= |PathElements(d.path)| && Prefix(d.path, n) == p)
        invariant forall p :: p in byPrefix ==>
          (byPrefix[p] in done && Member(byPrefix[p], n, p)) || (byPrefix[p] == e && Member(e, n, p))
        decreases |rest|
      {
        var d :| d in rest;
        byPrefix := byPrefix[Prefix(d.path, n) := e];
        rest := rest - {d};
      }
      todo := todo - {e};
      done := done + {e};
    }
  }

  /** The enclosure `byPrefix` gives for prefix `p`, or nil. */
  function Lookup(byPrefix: map<string, Enclosure>, p: string): (r: Enclosure?)
    ensures r != null <==> p in byPrefix
    ensures r != null ==> r == byPrefix[p]
  {
    if p in byPrefix then byPrefix[p] else null
  }

  /** What the loop reads of a device: the prefix of its path, its type,
      its slot and its MultiPath. None of these is written by the loop. */
  datatype Entry = Entry(prefix: string, devType: int, slot: int, unit: MultiPathDevice?)

  type SlotTable = Option<map<int, MultiPathDevice?>>

  /** The placement state: the enclosure each visited device was given, each
      enclosure's slot table, and, for the proof, the device that last
      matched each enclosure and the disk that last wrote each slot. */
  datatype PlaceState = PlaceState(encOf: map<Device, Enclosure?>, slotsOf: map<Enclosure, SlotTable>,
                                   opener: map<Enclosure, Device>, writer: map<(Enclosure, int), Device>)

  /** One iteration of the second loop of `updateEnclosure`, for device `d`. */
  ghost function Place(st: PlaceState, d: Device, info: map<Device, Entry>, byPrefix: map<string, Enclosure>): PlaceState
    requires d in info
    requires forall p :: p in byPrefix ==> byPrefix[p] in st.slotsOf
  {
    var e := Lookup(byPrefix, info[d].prefix);
    if e == null then st.(encOf := st.encOf[d := null])
    else
      var open := if st.slotsOf[e].None? then map[] else st.slotsOf[e].value;
      if info[d].devType == DiskType then
        PlaceState(st.encOf[d := e], st.slotsOf[e := Some(open[info[d].slot := info[d].unit])],
                   st.opener[e := d], st.writer[(e, info[d].slot) := d])
      else
        PlaceState(st.encOf[d := e], st.slotsOf[e := Some(open)], st.opener[e := d], st.writer)
  }

  /** `Place` when no enclosure claims the device's prefix. */
  lemma PlaceMissing(st: PlaceState, d: Device, info: map<Device, Entry>, byPrefix: map<string, Enclosure>)
    requires d in info && info[d].prefix !in byPrefix
    requires forall p :: p in byPrefix ==> byPrefix[p] in st.slotsOf
    ensures Place(st, d, info, byPrefix) == st.(encOf := st.encOf[d := null])
  {
  }

  /** `Place` when an enclosure claims the device's prefix: the table is
      opened, and a disk writes its slot. */
  lemma PlaceFound(st: PlaceState, d: Device, info: map<Device, Entry>, byPrefix: map<string, Enclosure>,
                   table: map<int, MultiPathDevice?>)
    requires d in info && info[d].prefix in byPrefix
    requires forall p :: p in byPrefix ==> byPrefix[p] in st.slotsOf
    requires var open := st.slotsOf[byPrefix[info[d].prefix]];
      table == if info[d].devType == DiskType
               then (if open.None? then map[] else open.value)[info[d].slot := info[d].unit]
               else (if open.None? then map[] else open.value)
    ensures var e := byPrefix[info[d].prefix];
      Place(st, d, info, byPrefix) ==
      PlaceState(st.encOf[d := e], st.slotsOf[e := Some(table)], st.opener[e := d],
                 if info[d].devType == DiskType then st.writer[(e, info[d].slot) := d] else st.writer)
  {
  }

  /** The visited devices have the enclosure of their prefix. */
  ghost predicate Matches(st: PlaceState, info: map<Device, Entry>, byPrefix: map<string, Enclosure>)
  {
    forall d :: d in st.encOf ==> d in info && st.encOf[d] == Lookup(byPrefix, info[d].prefix)
  }

  /** A slot table exists where it existed on entry or a visited device
      matched the enclosure. */
  ghost predicate Opened(st: PlaceState, slots0: map<Enclosure, SlotTable>)
  {
    && st.slotsOf.Keys == slots0.Keys
    && (forall e :: e in st.slotsOf ==> (st.slotsOf[e].Some? <==> slots0[e].Some? || e in st.opener))
    && (forall e :: e in st.opener ==> st.opener[e] in st.encOf && st.encOf[st.opener[e]] == e)
    && (forall d :: d in st.encOf && st.encOf[d] != null ==> st.encOf[d] in st.opener)
  }

  /** Each slot holds its entry value or the unit of a visited disk of that
      enclosure and slot. */
  ghost predicate Sourced(st: PlaceState, info: map<Device, Entry>, slots0: map<Enclosure, SlotTable>)
    requires st.slotsOf.Keys == slots0.Keys
  {
    forall e, s :: e in st.slotsOf && st.slotsOf[e].Some? && s in st.slotsOf[e].value ==>
      (slots0[e].Some? && s in slots0[e].value && st.slotsOf[e].value[s] == slots0[e].value[s])
      || ((e, s) in st.writer && st.writer[(e, s)] in st.encOf && st.writer[(e, s)] in info
          && st.encOf[st.writer[(e, s)]] == e && info[st.writer[(e, s)]].devType == DiskType
          && info[st.writer[(e, s)]].slot == s && info[st.writer[(e, s)]].unit == st.slotsOf[e].value[s])
  }

  /** Each visited disk with an enclosure has its slot in that enclosure's
      table. */
  ghost predicate Covered(st: PlaceState, info: map<Device, Entry>)
  {
    forall d :: d in st.encOf && d in info && info[d].devType == DiskType && st.encOf[d] != null ==>
      st.encOf[d] in st.slotsOf && st.slotsOf[st.encOf[d]].Some? && info[d].slot in st.slotsOf[st.encOf[d]].value
  }

  /** No slot entry present on entry is removed: tables are only created,
      added to or overwritten. */
  ghost predicate Kept(st: PlaceState, slots0: map<Enclosure, SlotTable>)
    requires st.slotsOf.Keys == slots0.Keys
  {
    forall e, s :: e in slots0 && slots0[e].Some? && s in slots0[e].value ==>
      st.slotsOf[e].Some? && s in st.slotsOf[e].value
  }

  ghost predicate PlaceInv(st: PlaceState, info: map<Device, Entry>, byPrefix: map<string, Enclosure>,
                           slots0: map<Enclosure, SlotTable>)
  {
    && (forall p :: p in byPrefix ==> byPrefix[p] in slots0)
    && Matches(st, info, byPrefix)
    && Opened(st, slots0)
    && Sourced(st, info, slots0)
    && Kept(st, slots0)
    && Covered(st, info)
  }

  lemma PlaceKeepsMatches(st: PlaceState, d: Device, info: map<Device, Entry>, byPrefix: map<string, Enclosure>,
                          slots0: map<Enclosure, SlotTable>)
    requires d in info && PlaceInv(st, info, byPrefix, slots0)
    ensures Matches(Place(st, d, info, byPrefix), info, byPrefix)
  {
  }

  lemma PlaceKeepsOpened(st: PlaceState, d: Device, info: map<Device, Entry>, byPrefix: map<string, Enclosure>,
                         slots0: map<Enclosure, SlotTable>)
    requires d in info && PlaceInv(st, info, byPrefix, slots0)
    ensures Opened(Place(st, d, info, byPrefix), slots0)
  {
    var st' := Place(st, d, info, byPrefix);
    var e := Lookup(byPrefix, info[d].prefix);
    if e != null {
      forall e' | e' in st'.opener ensures st'.opener[e'] in st'.encOf && st'.encOf[st'.opener[e']] == e' {
        if e' != e {
          assert st'.opener[e'] == st.opener[e'];
        }
      }
    }
  }

  lemma PlaceKeepsSourced(st: PlaceState, d: Device, info: map<Device, Entry>, byPrefix: map<string, Enclosure>,
                          slots0: map<Enclosure, SlotTable>)
    requires d in info && PlaceInv(st, info, byPrefix, slots0)
    ensures Place(st, d, info, byPrefix).slotsOf.Keys == slots0.Keys
    ensures Sourced(Place(st, d, info, byPrefix), info, slots0)
  {
    var st' := Place(st, d, info, byPrefix);
    var e := Lookup(byPrefix, info[d].prefix);
    assert st'.slotsOf.Keys == slots0.Keys;
    if e != null {
      forall e', s | e' in st'.slotsOf && st'.slotsOf[e'].Some? && s in st'.slotsOf[e'].value
        ensures (slots0[e'].Some? && s in slots0[e'].value && st'.slotsOf[e'].value[s] == slots0[e'].value[s])
          || ((e', s) in st'.writer && st'.writer[(e', s)] in st'.encOf && st'.writer[(e', s)] in info
              && st'.encOf[st'.writer[(e', s)]] == e' && info[st'.writer[(e', s)]].devType == DiskType
              && info[st'.writer[(e', s)]].slot == s && info[st'.writer[(e', s)]].unit == st'.slotsOf[e'].value[s])
      {
        if e' == e && info[d].devType == DiskType && s == info[d].slot {
          assert st'.writer[(e', s)] == d;
        } else if (e', s) in st.writer && st.writer[(e', s)] in st.encOf {
          var w := st.writer[(e', s)];
          if w != d {
            assert st'.encOf[w] == st.encOf[w];
          }
        }
      }
    }
  }

  lemma PlaceKeepsKept(st: PlaceState, d: Device, info: map<Device, Entry>, byPrefix: map<string, Enclosure>,
                       slots0: map<Enclosure, SlotTable>)
    requires d in info && PlaceInv(st, info, byPrefix, slots0)
    ensures Place(st, d, info, byPrefix).slotsOf.Keys == slots0.Keys
    ensures Kept(Place(st, d, info, byPrefix), slots0)
  {
    var st' := Place(st, d, info, byPrefix);
    assert st'.slotsOf.Keys == slots0.Keys;
    forall e, s | e in slots0 && slots0[e].Some? && s in slots0[e].value
      ensures st'.slotsOf[e].Some? && s in st'.slotsOf[e].value
    {
      assert st.slotsOf[e].Some? && s in st.slotsOf[e].value;
    }
  }

  lemma PlaceKeepsCovered(st: PlaceState, d: Device, info: map<Device, Entry>, byPrefix: map<string, Enclosure>,
                          slots0: map<Enclosure, SlotTable>)
    requires d in info && PlaceInv(st, info, byPrefix, slots0)
    ensures Covered(Place(st, d, info, byPrefix), info)
  {
  }

  /** The facts the invariant gives once every device has been visited. */
  lemma PlaceInvMeaning(st: PlaceState, all: set<Device>, info: map<Device, Entry>, byPrefix: map<string, Enclosure>,
                        slots0: map<Enclosure, SlotTable>)
    requires PlaceInv(st, info, byPrefix, slots0) && forall d :: d in st.encOf <==> d in all
    ensures forall d :: d in all ==> st.encOf[d] == Lookup(byPrefix, info[d].prefix)
    ensures forall e :: e in slots0 ==>
      (st.slotsOf[e].Some? <==> slots0[e].Some? || exists d :: d in all && st.encOf[d] == e)
    ensures forall e, s :: e in slots0 && st.slotsOf[e].Some? && s in st.slotsOf[e].value ==>
      (slots0[e].Some? && s in slots0[e].value && st.slotsOf[e].value[s] == slots0[e].value[s])
      || exists d :: d in all && st.encOf[d] == e && info[d].devType == DiskType && info[d].slot == s
                     && info[d].unit == st.slotsOf[e].value[s]
    ensures forall d :: d in all && info[d].devType == DiskType && st.encOf[d] != null ==>
      st.encOf[d] in slots0 && st.slotsOf[st.encOf[d]].Some? && info[d].slot in st.slotsOf[st.encOf[d]].value
    ensures forall e, s :: e in slots0 && slots0[e].Some? && s in slots0[e].value ==>
      st.slotsOf[e].Some? && s in st.slotsOf[e].value
  {
    forall e | e in slots0 && st.slotsOf[e].Some? && !slots0[e].Some?
      ensures exists d :: d in all && st.encOf[d] == e
    {
      assert st.opener[e] in all;
    }
    forall e, s | e in slots0 && st.slotsOf[e].Some? && s in st.slotsOf[e].value
                  && !(slots0[e].Some? && s in slots0[e].value && st.slotsOf[e].value[s] == slots0[e].value[s])
      ensures exists d :: d in all && st.encOf[d] == e && info[d].devType == DiskType && info[d].slot == s
                          && info[d].unit == st.slotsOf[e].value[s]
    {
      assert st.writer[(e, s)] in all;
    }
  }

  /** The heap agrees with what was read of each device and with the
      placement state: visited devices have their recorded enclosure, every
      enclosure its recorded slot table. */
  ghost predicate Linked(all: set<Device>, encls: set<Enclosure>, n: nat, info: map<Device, Entry>,
                         encOf: map<Device, Enclosure?>, slotsOf: map<Enclosure, SlotTable>)
    reads all, encls
  {
    && (forall d :: d in all ==>
         && d in info && n <= |PathElements(d.path)| && info[d].prefix == Prefix(d.path, n)
         && info[d].devType == d.devType && info[d].slot == d.slot && info[d].unit == d.multiPath
         && (d in encOf ==> d.enclosure == encOf[d]))
    && (forall e :: e in encls ==> e in slotsOf && e.slots == slotsOf[e])
  }

  method SetEnclosure(d: Device, e: Enclosure?, ghost all: set<Device>, ghost encls: set<Enclosure>, ghost n: nat,
                      ghost info: map<Device, Entry>, ghost encOf: map<Device, Enclosure?>,
                      ghost slotsOf: map<Enclosure, SlotTable>)
    requires d in all && Linked(all, encls, n, info, encOf, slotsOf)
    modifies d`enclosure
    ensures Linked(all, encls, n, info, encOf[d := e], slotsOf)
  {
    d.enclosure := e;
  }

  method SetSlots(e: Enclosure, table: SlotTable, ghost all: set<Device>, ghost encls: set<Enclosure>, ghost n: nat,
                  ghost info: map<Device, Entry>, ghost encOf: map<Device, Enclosure?>,
                  ghost slotsOf: map<Enclosure, SlotTable>)
    requires e in encls && Linked(all, encls, n, info, encOf, slotsOf)
    modifies e`slots
    ensures Linked(all, encls, n, info, encOf, slotsOf[e := table])
  {
    e.slots := table;
  }

  /** The body of the second loop of `updateEnclosure`, for one device: it
      performs the step `Place` describes. */
  method Visit(device: Device, byPrefix: map<string, Enclosure>, n: nat, ghost all: set<Device>,
               ghost encls: set<Enclosure>, ghost info: map<Device, Entry>, ghost slots0: map<Enclosure, SlotTable>,
               ghost st: PlaceState)
    returns (ghost st': PlaceState)
    requires device in all && Linked(all, encls, n, info, st.encOf, st.slotsOf) && PlaceInv(st, info, byPrefix, slots0)
    requires slots0.Keys == encls
    modifies device`enclosure, encls`slots
    ensures st' == Place(st, device, info, byPrefix)
    ensures device in st'.encOf
    ensures forall d :: d in st.encOf ==> d in st'.encOf
    ensures forall d :: d in st'.encOf ==> d in st.encOf || d == device
    ensures Linked(all, encls, n, info, st'.encOf, st'.slotsOf) && PlaceInv(st', info, byPrefix, slots0)
  {
    PlaceKeepsMatches(st, device, info, byPrefix, slots0);
    PlaceKeepsOpened(st, device, info, byPrefix, slots0);
    PlaceKeepsSourced(st, device, info, byPrefix, slots0);
    PlaceKeepsKept(st, device, info, byPrefix, slots0);
    PlaceKeepsCovered(st, device, info, byPrefix, slots0);
    var p := Prefix(device.path, n);
    var e: Enclosure? := if p in byPrefix then byPrefix[p] else null;
    assert info[device] == Entry(p, device.devType, device.slot, device.multiPath);
    SetEnclosure(device, e, all, encls, n, info, st.encOf, st.slotsOf);
    if e == null {
      PlaceMissing(st, device, info, byPrefix);
      st' := st.(encOf := st.encOf[device := null]);
    } else {
      // A nil table is created first; only a disk then takes a slot.
      var table := if e.slots.None? then map[] else e.slots.value;
      if device.devType == DiskType {
        table := table[device.slot := device.multiPath];
      }
      SetSlots(e, Some(table), all, encls, n, info, st.encOf[device := e], st.slotsOf);
      PlaceFound(st, device, info, byPrefix, table);
      st' := PlaceState(st.encOf[device := e], st.slotsOf[e := Some(table)], st.opener[e := device],
                        if device.devType == DiskType then st.writer[(e, device.slot) := device] else st.writer);
    }
  }

  /** The second loop of `updateEnclosure`: every device of the map, in
      iteration order. */
  method PlaceAll(devices: map<string, Device>, byPrefix: map<string, Enclosure>, n: nat, ghost all: set<Device>,
                  ghost encls: set<Enclosure>, ghost info: map<Device, Entry>, ghost slots0: map<Enclosure, SlotTable>)
    returns (ghost st: PlaceState)
    requires forall k :: k in devices ==> devices[k] in all
    requires slots0.Keys == encls && forall p :: p in byPrefix ==> byPrefix[p] in encls
    requires Linked(all, encls, n, info, map[], slots0)
    modifies all`enclosure, encls`slots
    ensures st.encOf.Keys <= all && forall k :: k in devices ==> devices[k] in st.encOf
    ensures Linked(all, encls, n, info, st.encOf, st.slotsOf) && PlaceInv(st, info, byPrefix, slots0)
  {
    st := PlaceState(map[], slots0, map[], map[]);
    var remaining := devices.Keys;
    while remaining != {}
      invariant remaining <= devices.Keys
      invariant st.encOf.Keys <= all
      invariant forall k :: k in devices && k !in remaining ==> devices[k] in st.encOf
      invariant Linked(all, encls, n, info, st.encOf, st.slotsOf) && PlaceInv(st, info, byPrefix, slots0)
      decreases |remaining|
    {
      var k :| k in remaining;
      var device := devices[k];
      remaining := remaining - {k};
      st := Visit(device, byPrefix, n, all, encls, info, slots0, st);
    }
  }

  /** `updateEnclosure(devices, enclosures, n)`. */
  method UpdateEnclosure(devices: map<string, Device>, enclosures: set<Enclosure>, n: nat)
    requires MembersReach(enclosures, n)
    requires forall d :: d in devices.Values ==> n <= |PathElements(d.path)|
    modifies devices.Values`enclosure, enclosures`slots
    // A device gets an enclosure exactly when some enclosure has a member
    // path with the same prefix, and then one such enclosure.
    ensures forall d :: d in devices.Values ==> (d.enclosure != null <==> Claimed(enclosures, n, Prefix(d.path, n)))
    ensures forall d :: d in devices.Values && d.enclosure != null ==>
      d.enclosure in enclosures && Member(d.enclosure, n, Prefix(d.path, n))
    // One prefix table is built before the loop, so devices that share
    // their first n path elements share their enclosure.
    ensures forall d1, d2 :: d1 in devices.Values && d2 in devices.Values && Prefix(d1.path, n) == Prefix(d2.path, n) ==>
      d1.enclosure == d2.enclosure
    // A slot table exists where one did before or a device matched.
    ensures forall e :: e in enclosures ==>
      (e.slots.Some? <==> old(e.slots).Some? || exists d :: d in devices.Values && d.enclosure == e)
    // Every slot holds its old unit or the unit of a disk of that enclosure
    // and slot: no device of another type ever occupies a slot.
    ensures forall e, s :: e in enclosures && e.slots.Some? && s in e.slots.value ==>
      (old(e.slots).Some? && s in old(e.slots).value && e.slots.value[s] == old(e.slots).value[s])
      || exists d :: d in devices.Values && d.enclosure == e && d.devType == DiskType && d.slot == s
                     && d.multiPath == e.slots.value[s]
    // No slot entry is removed: an old entry keeps its unit unless a disk
    // placed at that slot overwrote it.
    ensures forall e, s :: e in enclosures && old(e.slots).Some? && s in old(e.slots).value ==>
      e.slots.Some? && s in e.slots.value
      && (e.slots.value[s] == old(e.slots).value[s]
          || exists d :: d in devices.Values && d.enclosure == e && d.devType == DiskType && d.slot == s
                         && d.multiPath == e.slots.value[s])
    // Every disk with an enclosure has its slot in the table.
    ensures forall d :: d in devices.Values && d.devType == DiskType && d.enclosure != null ==>
      d.enclosure.slots.Some? && d.slot in d.enclosure.slots.value
  {
    var byPrefix := PrefixTable(enclosures, n);
    ghost var all := devices.Values;
    ghost var info := map d: Device | d in all :: Entry(Prefix(d.path, n), d.devType, d.slot, d.multiPath);
    ghost var slots0 := map e: Enclosure | e in enclosures :: e.slots;
    ghost var st := PlaceAll(devices, byPrefix, n, all, enclosures, info, slots0);
    forall d | d in all ensures d in st.encOf {
      var k :| k in devices.Keys && devices[k] == d;
    }
    PlaceInvMeaning(st, all, info, byPrefix, slots0);
  }
}
