/** Normalized, vendor-neutral configurations. */
module Config {
  import opened Wrappers

  datatype Vendor = Cisco | Arista
  datatype AdminState = Up | Down
  datatype AclAction = Permit | Deny

  /** An IPv4 address is its 32-bit value; the text form names it uniquely. */
  type Address = nat

  datatype Cidr = Cidr(address: Address, prefixLength: int)

  datatype Rule = Rule(action: AclAction, protocol: string, source: string, destination: string)
  datatype AclEntry = AclEntry(sequence: nat, rule: Rule)
  datatype Acl = Acl(name: string, entries: seq<AclEntry>)

  datatype Interface = Interface(
    name: string,
    description: Option<string>,
    ipAddress: Option<Cidr>,
    mtu: Option<int>,
    adminState: AdminState,
    aclIn: Option<string>,
    aclOut: Option<string>)

  datatype BgpNeighbor = BgpNeighbor(neighborIp: Address, remoteAs: int)

  datatype Configuration = Configuration(
    hostname: string,
    interfaces: seq<Interface>,
    bgpNeighbors: seq<BgpNeighbor>,
    acls: seq<Acl>)
}
