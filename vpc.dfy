/**
  The VPC part of an EKS cluster configuration: the cluster VPC's own
  network, its security group, and the table of subnets keyed by subnet
  topology and then by availability-zone name, with the operations that
  import subnets, list their IDs and check that a sufficient number of them
  is available to create a cluster.
 */
module Vpc {
  import opened Wrappers

  /** A byte of an IP address or of a network mask. */
  type Byte = bv8

  /** An IP network (Go's `net.IPNet`): an address and a mask, byte by byte. */
  datatype Cidr = Cidr(ip: seq<Byte>, mask: seq<Byte>)

  /** A network: a provider-assigned ID and a CIDR block that may be absent. */
  datatype Network = Network(id: string, cidr: Option<Cidr>)

  /** Subnets are either publicly or privately routed. */
  datatype Topology = Public | Private {
    /** The string value the topology has in the configuration. */
    function Name(): (s: string)
      ensures |s| > 0
      ensures this == Public <==> s == "Public"
      ensures this == Private <==> s == "Private"
    {
      match this
      case Public => "Public"
      case Private => "Private"
    }
  }

  /** The subnet table: topology, then availability zone, to network. */
  type SubnetTable = map<Topology, map<string, Network>>

  /** The number of subnets per topology that counts as sufficient to create a cluster. */
  const MIN_SUBNETS: nat := 3

  // ---------------------------------------------------------------------------
  // Default CIDR

  /** The byte with the `ones` leading bits set. */
  function LeadingOnes(ones: nat): (b: Byte)
    requires ones <= 8
    ensures ones == 0 ==> b == 0
    ensures ones == 8 ==> b == 0xFF
  {
    if ones == 0 then 0 else (0xFF as Byte) << (8 - ones)
  }

  /** The mask of `bytes` bytes whose first `ones` bits are set (the prefix mask that Go's `net.CIDRMask(ones, 8 * bytes)` gives). */
  function CIDRMask(ones: nat, bytes: nat): (m: seq<Byte>)
    requires ones <= 8 * bytes
    ensures |m| == bytes
    ensures forall i :: 0 <= i < bytes && 8 * (i + 1) <= ones ==> m[i] == 0xFF
    ensures forall i :: 0 <= i < bytes && ones <= 8 * i ==> m[i] == 0
    decreases bytes
  {
    if bytes == 0 then []
    else if ones >= 8 then [0xFF] + CIDRMask(ones - 8, bytes - 1)
    else [LeadingOnes(ones)] + CIDRMask(0, bytes - 1)
  }

  /** An address with every host bit (a bit the mask clears) cleared. */
  predicate IsNetworkAddress(ip: seq<Byte>, mask: seq<Byte>)
    requires |ip| == |mask|
  {
    forall i :: 0 <= i < |ip| ==> ip[i] & mask[i] == ip[i]
  }

  /** The default global CIDR of a cluster VPC. */
  function DefaultCIDR(): Cidr
  {
    Cidr([192, 168, 0, 0], [255, 255, 0, 0])
  }

  /** The default CIDR is the IPv4 network 192.168.0.0/16. */
  lemma DefaultCIDRIsSlash16()
    ensures DefaultCIDR() == Cidr([192, 168, 0, 0], CIDRMask(16, 4))
    ensures IsNetworkAddress(DefaultCIDR().ip, DefaultCIDR().mask)
  {
  }

  // ---------------------------------------------------------------------------
  // The subnet table as values

  /** The zones of one topology; a topology without a map has none. */
  function ZonesOf(s: SubnetTable, t: Topology): map<string, Network>
  {
    if t in s then s[t] else map[]
  }

  /** The number of subnets recorded under one topology. */
  function SubnetCount(s: SubnetTable, t: Topology): nat
  {
    |ZonesOf(s, t)|
  }

  /**
    The table after importing the subnet `subnetID` for zone `az` under
    topology `t`: the topology's map is created when missing, a new zone gets
    a network with that ID and no CIDR, and an existing zone only gets its ID
    replaced.
   */
  function ImportedSubnets(s: SubnetTable, t: Topology, az: string, subnetID: string): (r: SubnetTable)
    ensures t in r && az in r[t] && r[t][az].id == subnetID
    ensures t in s && az in s[t] ==> r[t][az].cidr == s[t][az].cidr
    ensures !(t in s && az in s[t]) ==> r[t][az].cidr == None
    ensures r.Keys == s.Keys + {t}
    ensures r[t].Keys == ZonesOf(s, t).Keys + {az}
    ensures forall u :: u in s && u != t ==> r[u] == s[u]
    ensures forall z :: z in ZonesOf(s, t) && z != az ==> r[t][z] == s[t][z]
  {
    var zones := ZonesOf(s, t);
    var network := if az in zones then zones[az].(id := subnetID) else Network(subnetID, None);
    s[t := zones[az := network]]
  }

  /** Importing the same subnet twice leaves the table as importing it once. */
  lemma ImportIdempotent(s: SubnetTable, t: Topology, az: string, subnetID: string)
    ensures var once := ImportedSubnets(s, t, az, subnetID);
            ImportedSubnets(once, t, az, subnetID) == once
  {
    var once := ImportedSubnets(s, t, az, subnetID);
    var twice := ImportedSubnets(once, t, az, subnetID);
    assert twice[t] == once[t];
  }

  /** An import adds a subnet to its topology exactly when the zone was new. */
  lemma ImportCount(s: SubnetTable, t: Topology, az: string, subnetID: string)
    ensures var r := ImportedSubnets(s, t, az, subnetID);
            SubnetCount(r, t) == SubnetCount(s, t) + (if az in ZonesOf(s, t) then 0 else 1)
            && forall u :: u != t ==> SubnetCount(r, u) == SubnetCount(s, u)
  {
  }

  /** Importing three distinct zones under a topology makes it sufficient. */
  lemma ImportThreeZonesSufficient(s: SubnetTable, t: Topology, a: string, b: string, c: string, idA: string, idB: string, idC: string)
    requires a != b && a != c && b != c
    ensures var r := ImportedSubnets(ImportedSubnets(ImportedSubnets(s, t, a, idA), t, b, idB), t, c, idC);
            SubnetCount(r, t) >= MIN_SUBNETS
  {
    var r1 := ImportedSubnets(s, t, a, idA);
    var r2 := ImportedSubnets(r1, t, b, idB);
    var r := ImportedSubnets(r2, t, c, idC);
    assert {a, b, c} <= r[t].Keys;
    CardinalityOfSubset({a, b, c}, r[t].Keys);
  }

  lemma {:induction false} CardinalityOfSubset<T>(small: set<T>, big: set<T>)
    requires small <= big
    ensures |small| <= |big|
    decreases small
  {
    if small != {} {
      var x :| x in small;
      CardinalityOfSubset(small - {x}, big - {x});
    }
  }

  // ---------------------------------------------------------------------------
  // Listing subnet IDs without fixing an order

  /** No zone occurs twice. */
  predicate Distinct(zs: seq<string>)
  {
    forall i, j :: 0 <= i < j < |zs| ==> zs[i] != zs[j]
  }

  /** `zs` lists every zone of `keys` exactly once, in some order. */
  predicate Enumerates(zs: seq<string>, keys: set<string>)
  {
    && Distinct(zs)
    && (forall i :: 0 <= i < |zs| ==> zs[i] in keys)
    && (forall z :: z in keys ==> z in zs)
  }

  /** The IDs of the networks of `zones`, taken in the order `zs` gives. */
  function ProjectIDs(zones: map<string, Network>, zs: seq<string>): (ids: seq<string>)
    requires forall i :: 0 <= i < |zs| ==> zs[i] in zones
    ensures |ids| == |zs|
    ensures forall i :: 0 <= i < |zs| ==> ids[i] == zones[zs[i]].id
  {
    if zs == [] then [] else [zones[zs[0]].id] + ProjectIDs(zones, zs[1..])
  }

  lemma {:induction false} DistinctCardinality(zs: seq<string>)
    requires Distinct(zs)
    ensures |set z | z in zs| == |zs|
  {
    if zs != [] {
      var rest := zs[1..];
      assert Distinct(rest);
      DistinctCardinality(rest);
      assert (set z | z in zs) == {zs[0]} + (set z | z in rest);
      assert zs[0] !in (set z | z in rest);
    }
  }

  /** An enumeration of a set of zones is as long as the set is large. */
  lemma EnumerationLength(zs: seq<string>, keys: set<string>)
    requires Enumerates(zs, keys)
    ensures |zs| == |keys|
  {
    DistinctCardinality(zs);
    var listed := set z | z in zs;
    assert listed == keys;
  }

  /** Listing the IDs along an enumeration of the zones gives one ID per zone entry. */
  lemma ListingLength(zones: map<string, Network>, zs: seq<string>)
    requires Enumerates(zs, zones.Keys)
    ensures |ProjectIDs(zones, zs)| == |zones|
  {
    EnumerationLength(zs, zones.Keys);
  }

  /** Every zone's ID occurs in the listing along an enumeration of the zones. */
  lemma ListingContains(zones: map<string, Network>, zs: seq<string>, az: string)
    requires Enumerates(zs, zones.Keys)
    requires az in zones
    ensures zones[az].id in ProjectIDs(zones, zs)
  {
  }

  /** Nothing other than zone IDs occurs in the listing along an enumeration of the zones. */
  lemma ListingOnlyIDs(zones: map<string, Network>, zs: seq<string>, id: string)
    requires Enumerates(zs, zones.Keys)
    requires id in ProjectIDs(zones, zs)
    ensures exists az :: az in zones && zones[az].id == id
  {
  }

  /** Listing IDs along a concatenation lists them along each part in turn. */
  lemma ProjectIDsAppend(zones: map<string, Network>, a: seq<string>, b: seq<string>)
    requires forall i :: 0 <= i < |a| ==> a[i] in zones
    requires forall i :: 0 <= i < |b| ==> b[i] in zones
    ensures ProjectIDs(zones, a + b) == ProjectIDs(zones, a) + ProjectIDs(zones, b)
  {
  }

  /** Taking one zone out of an enumeration enumerates the remaining zones. */
  lemma EnumerationRemove(zs: seq<string>, keys: set<string>, i: nat)
    requires Enumerates(zs, keys) && i < |zs|
    ensures Enumerates(zs[..i] + zs[i + 1..], keys - {zs[i]})
  {
  }

  /** The IDs along `zs` are those along `zs` with its `i`-th zone removed, plus that zone's ID. */
  lemma ProjectIDsRemove(zones: map<string, Network>, zs: seq<string>, i: nat)
    requires forall k :: 0 <= k < |zs| ==> zs[k] in zones
    requires i < |zs|
    ensures multiset(ProjectIDs(zones, zs))
         == multiset{zones[zs[i]].id} + multiset(ProjectIDs(zones, zs[..i] + zs[i + 1..]))
  {
    var before, after := zs[..i], zs[i + 1..];
    assert zs == before + ([zs[i]] + after);
    ProjectIDsAppend(zones, before, [zs[i]] + after);
    ProjectIDsAppend(zones, [zs[i]], after);
    ProjectIDsAppend(zones, before, after);
  }

  lemma {:induction false} EnumerationsAgree(zones: map<string, Network>, keys: set<string>, zs1: seq<string>, zs2: seq<string>)
    requires keys <= zones.Keys
    requires Enumerates(zs1, keys) && Enumerates(zs2, keys)
    ensures multiset(ProjectIDs(zones, zs1)) == multiset(ProjectIDs(zones, zs2))
    decreases |zs1|
  {
    if zs1 != [] {
      var z := zs1[0];
      assert z in keys;
      var i :| 0 <= i < |zs2| && zs2[i] == z;
      EnumerationRemove(zs1, keys, 0);
      EnumerationRemove(zs2, keys, i);
      assert zs1[..0] + zs1[1..] == zs1[1..];
      EnumerationsAgree(zones, keys - {z}, zs1[1..], zs2[..i] + zs2[i + 1..]);
      ProjectIDsRemove(zones, zs1, 0);
      ProjectIDsRemove(zones, zs2, i);
    }
  }

  /** Listings along two enumerations of the same zones hold the same IDs, possibly reordered. */
  lemma ListingsArePermutations(zones: map<string, Network>, zs1: seq<string>, zs2: seq<string>)
    requires Enumerates(zs1, zones.Keys) && Enumerates(zs2, zones.Keys)
    ensures multiset(ProjectIDs(zones, zs1)) == multiset(ProjectIDs(zones, zs2))
  {
    EnumerationsAgree(zones, zones.Keys, zs1, zs2);
  }

  // ---------------------------------------------------------------------------
  // The configuration objects

  /** The cluster VPC: its own network (VPC ID and global CIDR), the cluster security group and the subnets. */
  class ClusterVPC {
    var network: Network
    var securityGroup: string
    var subnets: SubnetTable

    constructor (network: Network, securityGroup: string, subnets: SubnetTable)
      ensures this.network == network && this.securityGroup == securityGroup && this.subnets == subnets
    {
      this.network := network;
      this.securityGroup := securityGroup;
      this.subnets := subnets;
    }
  }

  /** The cluster configuration, as far as its VPC goes. */
  class ClusterConfig {
    var vpc: ClusterVPC

    constructor (vpc: ClusterVPC)
      ensures this.vpc == vpc
    {
      this.vpc := vpc;
    }

    /**
      The IDs of every subnet under topology `t`. Go leaves the order of a map
      iteration unspecified; the ghost `order` is the order of the zones that
      this call happened to take.
     */
    method SubnetIDs(t: Topology) returns (ids: seq<string>, ghost order: seq<string>)
      ensures Enumerates(order, ZonesOf(vpc.subnets, t).Keys)
      ensures ids == ProjectIDs(ZonesOf(vpc.subnets, t), order)
      ensures |ids| == SubnetCount(vpc.subnets, t)
      ensures t !in vpc.subnets ==> ids == []
    {
      var zones := if t in vpc.subnets then vpc.subnets[t] else map[];
      ids, order := [], [];
      var rest := zones.Keys;
      while rest != {}
        invariant rest <= zones.Keys
        invariant Distinct(order)
        invariant forall z :: z in order <==> z in zones && z !in rest
        invariant ids == ProjectIDs(zones, order)
        decreases rest
      {
        var az :| az in rest;
        ProjectIDsAppend(zones, order, [az]);
        ids := ids + [zones[az].id];
        order := order + [az];
        rest := rest - {az};
      }
      ListingLength(zones, order);
    }

    /**
      Imports subnet `subnetID` for zone `az` under topology `t`, creating the
      topology's map when missing and keeping an existing zone's CIDR.
     */
    method ImportSubnet(t: Topology, az: string, subnetID: string)
      modifies vpc`subnets
      ensures vpc.subnets == ImportedSubnets(old(vpc.subnets), t, az, subnetID)
      ensures t in vpc.subnets && az in vpc.subnets[t] && vpc.subnets[t][az].id == subnetID
    {
      if t !in vpc.subnets {
        vpc.subnets := vpc.subnets[t := map[]];
      }
      if az !in vpc.subnets[t] {
        vpc.subnets := vpc.subnets[t := vpc.subnets[t][az := Network(subnetID, None)]];
      } else {
        var network := vpc.subnets[t][az];
        network := network.(id := subnetID);
        vpc.subnets := vpc.subnets[t := vpc.subnets[t][az := network]];
      }
    }

    /** Whether a sufficient number of public subnets is available to create a cluster. */
    method HasSufficientPublicSubnets() returns (ok: bool)
      ensures ok <==> SubnetCount(vpc.subnets, Public) >= MIN_SUBNETS
    {
      var ids, _ := SubnetIDs(Public);
      ok := |ids| >= 3;
    }

    /** Whether a sufficient number of private subnets is available to create a cluster. */
    method HasSufficientPrivateSubnets() returns (ok: bool)
      ensures ok <==> SubnetCount(vpc.subnets, Private) >= MIN_SUBNETS
    {
      var ids, _ := SubnetIDs(Private);
      ok := |ids| >= 3;
    }
  }
}
