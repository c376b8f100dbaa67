/** lib/hba.go: the adapter -> port -> phy graph and its lookups. Nothing in
    the graph is changed after `findHBAPorts` builds it, so its entities are
    values. A Go map keyed by pointers (`map[*HBAPort]bool`) is a sequence
    here: one entry per pointer, in the order iteration visits them. */
module Hba {
  import opened Base

  /** A SAS phy: `phy_identifier` and `sas_address`. */
  datatype Phy = Phy(phyIdentifier: string, sasAddress: string)

  /** A SAS port of an adapter and its phys. */
  datatype HbaPort = HbaPort(portId: string, phys: seq<Phy>)
  {
    /** `HBAPort.PhyIds`: the identifier of every phy of the port. */
    method PhyIds() returns (ids: seq<string>)
      ensures ids == PhyIdentifiers(phys)
      ensures |ids| == |phys|
      ensures multiset(ids) == multiset(PhyIdentifiers(phys))
      ensures forall i :: 0 <= i < |phys| ==> ids[i] == phys[i].phyIdentifier
    {
      ids := [];
      for i := 0 to |phys|
        invariant ids == PhyIdentifiers(phys[..i])
      {
        assert phys[..i + 1] == phys[..i] + [phys[i]];
        PhyIdentifiersAppend(phys[..i], phys[i]);
        ids := ids + [phys[i].phyIdentifier];
      }
      assert phys[..|phys|] == phys;
      PhyIdentifiersSpec(phys);
    }
  }

  /** An adapter: PCI bus id, SCSI host, configured slot label, ports. */
  datatype Hba = Hba(pciId: string, host: string, slot: string, ports: seq<HbaPort>)
  {
    /** `HBA.Port`: a port with the given id, the first one iteration
        meets, or none when no port has that id. */
    method Port(p: string) returns (r: Option<HbaPort>)
      ensures r.Some? ==> r.value in ports && r.value.portId == p
      ensures r.Some? ==> exists i :: 0 <= i < |ports| && ports[i] == r.value
                            && forall j :: 0 <= j < i ==> ports[j].portId != p
      ensures r.None? <==> forall i :: 0 <= i < |ports| ==> ports[i].portId != p
    {
      for i := 0 to |ports|
        invariant forall j :: 0 <= j < i ==> ports[j].portId != p
      {
        if ports[i].portId == p {
          return Some(ports[i]);
        }
      }
      return None;
    }

    /** `HBA.PhyIds`: the identifier of every phy of every port. */
    method PhyIds() returns (ids: seq<string>)
      ensures ids == AllPhyIds(ports)
      ensures |ids| == TotalPhys(ports)
    {
      ids := [];
      for i := 0 to |ports|
        invariant ids == AllPhyIds(ports[..i])
      {
        var port := ports[i];
        ghost var before := ids;
        for j := 0 to |port.phys|
          invariant ids == before + PhyIdentifiers(port.phys[..j])
        {
          PhyIdentifiersAppend(port.phys[..j], port.phys[j]);
          assert port.phys[..j + 1] == port.phys[..j] + [port.phys[j]];
          ids := ids + [port.phys[j].phyIdentifier];
        }
        assert port.phys[..|port.phys|] == port.phys;
        AllPhyIdsAppend(ports[..i], port);
        assert ports[..i + 1] == ports[..i] + [port];
      }
      assert ports[..|ports|] == ports;
      AllPhyIdsLength(ports);
    }
  }

  /** The identifiers of a sequence of phys, in order. */
  function PhyIdentifiers(phys: seq<Phy>): seq<string>
    decreases |phys|
  {
    if |phys| == 0 then [] else [phys[0].phyIdentifier] + PhyIdentifiers(phys[1..])
  }

  /** The identifiers of all phys of all ports, port by port. */
  function AllPhyIds(ports: seq<HbaPort>): seq<string>
    decreases |ports|
  {
    if |ports| == 0 then [] else PhyIdentifiers(ports[0].phys) + AllPhyIds(ports[1..])
  }

  /** The number of phys over all ports. */
  function TotalPhys(ports: seq<HbaPort>): nat
    decreases |ports|
  {
    if |ports| == 0 then 0 else |ports[0].phys| + TotalPhys(ports[1..])
  }

  lemma {:induction false} PhyIdentifiersAppend(phys: seq<Phy>, p: Phy)
    ensures PhyIdentifiers(phys + [p]) == PhyIdentifiers(phys) + [p.phyIdentifier]
    decreases |phys|
  {
    if |phys| > 0 {
      assert (phys + [p])[1..] == phys[1..] + [p];
      PhyIdentifiersAppend(phys[1..], p);
    }
  }

  lemma {:induction false} AllPhyIdsAppend(ports: seq<HbaPort>, port: HbaPort)
    ensures AllPhyIds(ports + [port]) == AllPhyIds(ports) + PhyIdentifiers(port.phys)
    decreases |ports|
  {
    if |ports| > 0 {
      assert (ports + [port])[1..] == ports[1..] + [port];
      AllPhyIdsAppend(ports[1..], port);
    }
  }

  /** One identifier per phy, and each is that phy's identifier. */
  lemma {:induction false} PhyIdentifiersSpec(phys: seq<Phy>)
    ensures |PhyIdentifiers(phys)| == |phys|
    ensures forall i :: 0 <= i < |phys| ==> PhyIdentifiers(phys)[i] == phys[i].phyIdentifier
    decreases |phys|
  {
    if |phys| > 0 {
      PhyIdentifiersSpec(phys[1..]);
    }
  }

  /** `HBA.PhyIds` returns as many identifiers as the ports have phys. */
  lemma {:induction false} AllPhyIdsLength(ports: seq<HbaPort>)
    ensures |AllPhyIds(ports)| == TotalPhys(ports)
    decreases |ports|
  {
    if |ports| > 0 {
      PhyIdentifiersSpec(ports[0].phys);
      AllPhyIdsLength(ports[1..]);
    }
  }

  /** An identifier is listed exactly when some phy of some port has it. */
  lemma {:induction false} AllPhyIdsMembers(ports: seq<HbaPort>, id: string)
    ensures id in AllPhyIds(ports) <==>
      exists i, j :: 0 <= i < |ports| && 0 <= j < |ports[i].phys| && ports[i].phys[j].phyIdentifier == id
    decreases |ports|
  {
    if |ports| > 0 {
      PhyIdentifiersSpec(ports[0].phys);
      AllPhyIdsMembers(ports[1..], id);
      var ids0 := PhyIdentifiers(ports[0].phys);
      if id in ids0 {
        var j :| 0 <= j < |ids0| && ids0[j] == id;
        assert ports[0].phys[j].phyIdentifier == id;
      }
      if exists i, j :: 0 <= i < |ports| && 0 <= j < |ports[i].phys| && ports[i].phys[j].phyIdentifier == id {
        var i, j :| 0 <= i < |ports| && 0 <= j < |ports[i].phys| && ports[i].phys[j].phyIdentifier == id;
        if i == 0 {
          assert ids0[j] == id;
        } else {
          assert ports[1..][i - 1].phys[j].phyIdentifier == id;
        }
      }
    }
  }

  /** Without ports, or with ports that have no phys, there are no identifiers. */
  lemma {:induction false} NoPhysNoIds(ports: seq<HbaPort>)
    requires forall i :: 0 <= i < |ports| ==> ports[i].phys == []
    ensures AllPhyIds(ports) == []
    decreases |ports|
  {
    if |ports| > 0 {
      NoPhysNoIds(ports[1..]);
    }
  }
}
