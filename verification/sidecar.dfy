/** The tool's own working state, kept beside the UCI files: what the user has
    configured, and the bookkeeping the DNS projection needs to roll back. */
module Sidecar {
  import opened Text

  // ---- DHCP and routing ----

  datatype CustomOption = CustomOption(code: int, value: string)

  datatype DhcpServer = DhcpServer(
    id: string, iface: string, enabled: bool, ipStart: string, ipEnd: string, force: bool,
    gateway: string, dnsPrimary: string, dnsSecondary: string, leaseMinutes: int,
    exclude: seq<string>, customOptions: seq<CustomOption>, managed: bool)

  datatype StaticLease = StaticLease(
    id: string, hostname: string, ip: string, mac: string, gateway: string, iface: string,
    dnsPrimary: string, dnsSecondary: string, enabled: bool, routePush: bool, managed: bool)

  datatype AclEntry = AclEntry(id: string, mac: string, enabled: bool, managed: bool)

  datatype Acl = Acl(mode: string, entries: seq<AclEntry>)

  datatype Route = Route(
    id: string, family: string, iface: string, target: string, netmask: string, prefix: int,
    gateway: string, metric: int, kind: string, mtu: int, table: int, enabled: bool,
    pushToClients: bool, managed: bool)

  datatype PolicyRule = PolicyRule(
    id: string, family: string, enabled: bool, priority: int, src: string, dest: string,
    inIface: string, lookup: string, managed: bool)

  datatype Dhcp = Dhcp(
    servers: seq<DhcpServer>, statics: seq<StaticLease>, acl: Acl, routes: seq<Route>,
    rules: seq<PolicyRule>, pushMode: string)

  const FAMILY_IPV6 := "ipv6"
  const FAMILY_IPV4 := "ipv4"
  const ACL_BLACKLIST := "blacklist"
  const ACL_WHITELIST := "whitelist"
  const PUSH_ALL := "all"
  const PUSH_TAGGED := "tagged"

  // ---- IPv6 ----

  datatype WanV6 = WanV6(
    id: string, wanIface: string, device: string, proto: string, enabled: bool,
    reqPrefix: string, fixedPrefix: string, forcePrefix: bool, clientId: string, noRelease: bool,
    peerDns: bool, dnsPrimary: string, dnsSecondary: string, staticIp6: string, staticGw: string,
    peerAddr: string, tunPrefix: string, mtu: int, managed: bool)

  datatype LanV6 = LanV6(
    iface: string, bindWan: string, prefixAssignLen: int, prefixHint: string,
    dhcpv6Enabled: bool, dhcpv6Mode: string, ipv6DnsEnabled: bool, dnsServers: seq<string>,
    leaseMinutes: int, raMtuEnabled: bool, raMtu: int, enabled: bool, managed: bool)

  datatype PrefixStaticV6 = PrefixStaticV6(
    id: string, duid: string, hostId: string, mac: string, remark: string, enabled: bool, managed: bool)

  datatype AclV6Entry = AclV6Entry(id: string, duid: string, byDuid: bool, enabled: bool, managed: bool)

  datatype AclV6 = AclV6(mode: string, entries: seq<AclV6Entry>)

  datatype Ipv6 = Ipv6(wans: seq<WanV6>, lans: seq<LanV6>, prefixes: seq<PrefixStaticV6>, acl: AclV6)

  // ---- DNS ----

  datatype DnsSettings = DnsSettings(
    enabled: bool, primary: string, secondary: string, noResolv: bool, filterAaaa: bool,
    cacheSize: int, localTtl: int, minCacheTtl: int, maxCacheTtl: int, forceProxy: bool,
    dnssec: bool, rebindProtect: bool, allServers: bool, rebindDomains: seq<string>,
    savedStock: Option<map<string, string>>, prevServers: seq<string>, prevAddrs: seq<string>,
    prevRebind: seq<string>)

  datatype DnsDoh = DnsDoh(enabled: bool, listenPort: int)

  datatype DnsRecord = DnsRecord(
    id: string, domain: string, address: string, wildcard: bool, enabled: bool, managed: bool)

  datatype DnsRoute = DnsRoute(domain: string, server: string, outIface: string, enabled: bool, managed: bool)

  datatype Dns = Dns(settings: DnsSettings, doh: DnsDoh, records: seq<DnsRecord>, routes: seq<DnsRoute>)

  // ---- small helpers ----

  function JoinDns(a: string, b: string): string {
    var ps := (if TrimSpace(a) != "" then [a] else []) + (if TrimSpace(b) != "" then [b] else []);
    Join(ps, ",")
  }

  function TrimPrefix(s: string, p: string): string {
    if HasPrefix(s, p) then s[|p|..] else s
  }

  /** A setting where zero and below mean "not set". */
  function PositiveOr(n: int): seq<string> {
    if n > 0 then [Decimal(n)] else []
  }
}
