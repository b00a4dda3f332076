# Cluster VPC subnet bookkeeping (eksctl)

This project models the subnet bookkeeping that eksctl keeps on a cluster configuration, in `pkg/eks/api/vpc.go`, and proves properties of that model in Dafny.

- **The cluster VPC** has its own network (the VPC ID and its global CIDR), the ID of the cluster security group, and a two-level subnet table. The table maps a subnet topology (`Public` or `Private`) to a map from availability-zone name to a `Network`, which is an ID and a CIDR.
- **`DefaultCIDR`** is the VPC's default global network, 192.168.0.0/16.
- **`ImportSubnet`** records an existing subnet for a topology and zone. It creates the topology's map when it is missing. A new zone gets a network that has only the ID. An existing zone gets its ID replaced and keeps its CIDR.
- **`SubnetIDs`** lists the ID of every subnet under one topology. The order follows Go's map iteration, so it is unspecified.
- **`HasSufficientPublicSubnets`** and **`HasSufficientPrivateSubnets`** check that a topology has at least three subnets, which the code's comments call a sufficient number to create a cluster. Callers outside this model decide what to do with the answer.

Layout:
- `wrappers.dfy` holds `Option`. `None` stands for a nil `*net.IPNet`.
- `vpc.dfy` holds module `Vpc`, which contains:
  - the value types `Cidr`, `Network` and `Topology`;
  - the pure specification of the subnet table (`ImportedSubnets`, `Enumerates`, `ProjectIDs`) and the lemmas about it;
  - the classes `ClusterVPC` and `ClusterConfig`.

The Go code changes `ClusterVPC` in place through the configuration's pointer, so both are classes. `ClusterConfig.ImportSubnet` may modify only the `subnets` field of the VPC. Its postcondition ties the new table to `ImportedSubnets` of the old one.

`SubnetIDs` builds its list in a loop over the zone keys, taken in an arbitrary order. It also returns that order as a ghost value, `order`. Its postcondition says two things: `order` enumerates the topology's zones, each exactly once, and the list is the zones' IDs in that order (`ProjectIDs`). Lemmas about any such enumeration describe the list:
- it has one ID per zone;
- it contains every zone's ID;
- it contains nothing else;
- two enumerations give lists that are permutations of each other (`ListingsArePermutations`).

So the content is fixed and the order is not.

## Model

| member | source | states |
|---|---|---|
| `Vpc.Topology.Name` | pkg/eks/api/vpc.go:28-33 | each topology's configuration string is non-empty; it is `"Public"` exactly for the public topology and `"Private"` exactly for the private one |
| `Vpc.DefaultCIDRIsSlash16` | pkg/eks/api/vpc.go:36-41 | the default CIDR is address 192.168.0.0 with the 4-byte mask of 16 leading ones (255.255.0.0), and that address is a network address under the mask |
| `Vpc.ImportedSubnets` | pkg/eks/api/vpc.go:53-63 | after an import, the topology and zone exist and carry the new ID; an existing zone keeps its CIDR, while a new zone has no CIDR; the topology key set gains exactly `t`, and the zone key set gains exactly `az`; every other topology and every other zone is unchanged |
| `Vpc.ImportIdempotent` | pkg/eks/api/vpc.go:53-63 | importing the same subnet twice gives the same table as importing it once |
| `Vpc.ImportCount` | pkg/eks/api/vpc.go:54-62 | an import raises the subnet count of its topology by one exactly when the zone was new, and leaves the count of every other topology unchanged |
| `Vpc.ImportThreeZonesSufficient` | pkg/eks/api/vpc.go:53-75 | importing three distinct zones under one topology leaves that topology with at least the three subnets that the sufficiency checks require |
| `Vpc.ProjectIDs` | pkg/eks/api/vpc.go:46-47 | taking the IDs along a sequence of zones gives one ID per zone, at the same position as its zone |
| `Vpc.ListingLength` | pkg/eks/api/vpc.go:44-50 | the IDs listed along an enumeration of a topology's zones are exactly as many as the topology's zones |
| `Vpc.ListingContains` | pkg/eks/api/vpc.go:44-50 | every zone's subnet ID occurs in the listing |
| `Vpc.ListingOnlyIDs` | pkg/eks/api/vpc.go:44-50 | every ID in the listing is the ID of some zone's subnet |
| `Vpc.ListingsArePermutations` | pkg/eks/api/vpc.go:46-48 | listings along any two enumerations of the same zones hold the same IDs with the same multiplicities, whatever the iteration order |
| `Vpc.ClusterVPC.constructor` | pkg/eks/api/vpc.go:9-18 | builds a VPC with the given network, security group and subnet table |
| `Vpc.ClusterConfig.SubnetIDs` | pkg/eks/api/vpc.go:44-50 | returns the IDs of the topology's zones, one per zone, in the order of an enumeration `order` of the zones that it also returns as a ghost value; the length is the topology's subnet count, and the list is empty when the topology has no map |
| `Vpc.ClusterConfig.ImportSubnet` | pkg/eks/api/vpc.go:53-63 | changes only the VPC's subnet table, and the new table is `ImportedSubnets` of the old one; the topology and zone then exist and carry the new ID |
| `Vpc.ClusterConfig.HasSufficientPublicSubnets` | pkg/eks/api/vpc.go:67-69 | true exactly when the public topology has at least 3 subnets |
| `Vpc.ClusterConfig.HasSufficientPrivateSubnets` | pkg/eks/api/vpc.go:73-75 | true exactly when the private topology has at least 3 subnets |

## Left out

- `ExtraCIDRs` of `ClusterVPC` (pkg/eks/api/vpc.go:17) is left out, because none of the modelled functions reads it.
- The nil outer subnet map is not modelled. Dafny maps always exist, and the model gives every VPC a table. The Go code panics when `ImportSubnet` writes into a nil outer map.
- Nil inner maps are not modelled. In Go a topology can be present with a nil zone map, for example `{"Public": nil}`. `ImportSubnet` then finds the topology (vpc.go:54), skips creating its map, and panics when it writes the zone (vpc.go:58). The model's inner maps always exist, so on that input `ImportedSubnets` returns a table holding the new zone.
- Sharing of inner maps is not modelled. Go writes into an existing zone map in place (vpc.go:58, 61), so the change is visible through every other reference to that map. In the model the subnet table is a value, and `ImportSubnet` changes nothing outside the VPC's `subnets` field.
- A nil `VPC` pointer on the configuration is not modelled. The field has a non-null class type.
- `ClusterConfig` holds only its VPC. Its other fields (region, name, endpoint, certificate data, ARN, zones, node groups) are declared in a file that is not part of this model, and the modelled functions do not read them.
- `Cidr` is opaque data: an address and a mask as byte sequences. The `net.IPNet` internals and all subnet arithmetic are left out. The only mask function is the standard prefix mask, used to state what `DefaultCIDR` means.
- The subnet topology is a closed two-variant datatype. In Go it is a string type, so a Go caller could key the table with any string. Only the two constants `"Public"` and `"Private"` are defined (pkg/eks/api/vpc.go:28-33), and `Topology.Name` gives those strings.
- Vpc.ClusterConfig.SubnetIDs: states no iteration order, because Go leaves map iteration order unspecified.
- The CloudFormation resource-set builder, subnet allocation (`SetSubnets`), output reconciliation (`GetAllOutputs`), the bootstrap user-data assembly, JSON rendering and base64 decoding are left out. Their source is not part of this model.
- The AWS SDK mocks that select availability zones are left out, because they are I/O with no logic to verify.

Facts about the code that the model keeps:
- The topology strings are the capitalised `"Public"` and `"Private"` (vpc.go:30, 32).
- `SubnetIDs` has no fixed order, because it ranges over a Go map (vpc.go:46).
- `ImportSubnet` does not mark an imported subnet as protected from later allocation.
