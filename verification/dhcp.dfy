/** What `apply` wants in the DHCP configuration: pools, excluded addresses,
    reservations with their tags, and the access list; then what it does to the
    sections it does not own, and what the result serves. */
module DhcpSpec {
  import opened Text
  import opened Uci
  import opened Projection
  import opened Sidecar
  import opened NetUtil
  import opened Addresses

  // ---- inputs read from the network configuration ----

  /** The interface's IPv4 address, without a prefix length. */
  function IfaceIp(net: Config, iface: string): string {
    var ip := UciGet(net, iface, "ipaddr");
    ip[..IndexOf(ip, '/')]
  }

  function IfaceMask(net: Config, iface: string): string {
    UciGet(net, iface, "netmask")
  }

  /** Where the pool starts and how many addresses it has: relative to the bound
      interface's network, or by the last octet when that cannot be computed. */
  function PoolAt(s: DhcpServer, net: Config): Pool {
    var ip, mask := IfaceIp(net, s.iface), IfaceMask(net, s.iface);
    var at := StartLimit(ip, mask, s.ipStart, s.ipEnd);
    if ip != "" && mask != "" && at.Some? then at.value
    else
      Pool(if ParseIp(s.ipStart).Some? then ParseIp(s.ipStart).value % 256 else 0,
           if RangeCount(s.ipStart, s.ipEnd).Some? then RangeCount(s.ipStart, s.ipEnd).value else 0)
  }

  // ---- wanted sections ----

  predicate Serving(s: DhcpServer) {
    s.managed && s.enabled
  }

  /** The interfaces on which the tool runs an enabled pool. */
  function Busy(servers: seq<DhcpServer>): set<string> {
    set s | s in servers && Serving(s) && s.iface != "" :: s.iface
  }

  function PushRoutes(st: Dhcp): seq<Route> {
    if st.pushMode == PUSH_ALL || st.pushMode == PUSH_TAGGED then Pushable(st.routes) else []
  }

  function Pushable(routes: seq<Route>): seq<Route> {
    if routes == [] then []
    else
      var r := routes[|routes| - 1];
      Pushable(routes[..|routes| - 1])
      + (if r.enabled && r.managed && r.family == FAMILY_IPV4 && r.pushToClients then [r] else [])
  }

  function RouteParts(routes: seq<Route>, nextHop: string): seq<string> {
    if routes == [] then []
    else
      RouteParts(routes[..|routes| - 1], nextHop)
      + [routes[|routes| - 1].target + "/" + Decimal(routes[|routes| - 1].prefix), nextHop]
  }

  /** The value of options 121 and 249: the default route and every pushed one. */
  function ClasslessValue(gw: string, nextHop: string, routes: seq<Route>): string {
    if gw == "" || nextHop == "" || routes == [] then ""
    else Join(["0.0.0.0/0", gw] + RouteParts(routes, nextHop), ",")
  }

  function CustomValues(os: seq<CustomOption>): seq<string> {
    if os == [] then []
    else CustomValues(os[..|os| - 1]) + [Decimal(os[|os| - 1].code) + "," + os[|os| - 1].value]
  }

  function GatewayAndDns(gateway: string, dns: string, hasGateway: bool): seq<string> {
    (if hasGateway then ["3," + gateway] else []) + (if dns != "" then ["6," + dns] else [])
  }

  function ClasslessPair(v: string): seq<string> {
    if v == "" then [] else ["121," + v, "249," + v]
  }

  function PoolOptions(s: DhcpServer, st: Dhcp, net: Config): seq<string> {
    GatewayAndDns(s.gateway, JoinDns(s.dnsPrimary, s.dnsSecondary), s.gateway != "")
    + CustomValues(s.customOptions)
    + (if st.pushMode == PUSH_ALL then ClasslessPair(ClasslessValue(s.gateway, IfaceIp(net, s.iface), PushRoutes(st)))
       else [])
  }

  function LeaseTime(minutes: int): string {
    if minutes <= 0 then "infinite" else Decimal(minutes) + "m"
  }

  /** The options written for every pool, enabled or not. A disabled pool cannot use
      `ignore` when its interface also has an enabled pool: that would silence both. */
  function PoolRange(s: DhcpServer, st: Dhcp, net: Config): Patch {
    var shared := s.iface in Busy(st.servers);
    var at := PoolAt(s, net);
    var ranged := s.enabled || !shared;
    map["managed_by" := [MARKER],
        "interface" := One(s.iface),
        "start" := if ranged then [Numeral(at.start)] else [],
        "limit" := if ranged then [Numeral(at.limit)] else [],
        "leasetime" := [LeaseTime(s.leaseMinutes)],
        "force" := if s.force then ["1"] else [],
        "ignore" := if s.enabled || shared then [] else ["1"]]
  }

  function PoolBase(s: DhcpServer, st: Dhcp, net: Config): Patch {
    if s.enabled then PoolRange(s, st, net)["dhcpv4" := ["server"]] else PoolRange(s, st, net)
  }

  function PoolPatch(s: DhcpServer, st: Dhcp, net: Config): Patch {
    PoolBase(s, st, net)
    ["dhcp_option" := PoolOptions(s, st, net)]
    ["dynamicdhcp" := if st.acl.mode == ACL_WHITELIST then ["0"] else []]
  }

  function PoolWrite(s: DhcpServer, st: Dhcp, net: Config): Write {
    Write(UciName(s.id), "dhcp", PoolPatch(s, st, net))
  }

  function Hex(d: nat): char
    requires d < 16
  {
    "0123456789abcdef"[d]
  }

  function HexByte(b: nat): string
    requires b < 256
  {
    [Hex(b / 16), Hex(b % 16)]
  }

  /** The stable MAC that reserves an excluded address. */
  function PlaceholderMac(ip: string): string {
    match ParseIp(ip)
    case None => "02:00:00:00:00:00"
    case Some(u) =>
      OctetsQuad(u);
      "02:00:" + HexByte(Octet(u, 0)) + ":" + HexByte(Octet(u, 1)) + ":" + HexByte(Octet(u, 2)) + ":" + HexByte(Octet(u, 3))
  }

  function HostPatch(mac: string, ip: string): Patch {
    map["managed_by" := [MARKER], "mac" := One(mac), "ip" := One(ip)]
  }

  function ExcludedWrite(poolName: string, ip: string): Write {
    Write(UciName(poolName + "_x_" + ip), "host", HostPatch(PlaceholderMac(ip), ip))
  }

  function ExcludedWrites(poolName: string, ips: seq<string>): seq<Write> {
    if ips == [] then []
    else ExcludedWrites(poolName, ips[..|ips| - 1]) + [ExcludedWrite(poolName, ips[|ips| - 1])]
  }

  function ServerWrites(s: DhcpServer, st: Dhcp, net: Config): seq<Write> {
    if !s.managed then []
    else
      [PoolWrite(s, st, net)]
      + (if s.enabled then ExcludedWrites(UciName(s.id), Expanded(s.exclude)) else [])
  }

  function AllServerWrites(servers: seq<DhcpServer>, st: Dhcp, net: Config): seq<Write> {
    if servers == [] then []
    else AllServerWrites(servers[..|servers| - 1], st, net) + ServerWrites(servers[|servers| - 1], st, net)
  }

  predicate LabelChar(c: char, inner: bool) {
    'A' <= c <= 'Z' || 'a' <= c <= 'z' || '0' <= c <= '9' || ((c == '-' || c == '_') && inner)
  }

  /** The host name if dnsmasq accepts it as a label, "" otherwise. */
  function DnsSafeHostname(name: string): string {
    var n := TrimSpace(name);
    if n != "" && |n| <= 63 && forall i :: 0 <= i < |n| ==> LabelChar(n[i], i != 0 && i != |n| - 1) then n else ""
  }

  /** The pool a tagged host takes its gateway from. */
  function FirstServing(servers: seq<DhcpServer>, iface: string, any: bool): Option<DhcpServer> {
    if servers == [] then None
    else if Serving(servers[0]) && (any || servers[0].iface == iface) then Some(servers[0])
    else FirstServing(servers[1..], iface, any)
  }

  function PoolForInterface(servers: seq<DhcpServer>, iface: string): Option<DhcpServer> {
    var exact := FirstServing(servers, iface, false);
    if iface != "" && exact.Some? then exact else FirstServing(servers, iface, true)
  }

  function TagOptions(l: StaticLease, st: Dhcp, net: Config): seq<string> {
    var own := GatewayAndDns(l.gateway, JoinDns(l.dnsPrimary, l.dnsSecondary), TrimSpace(l.gateway) != "");
    var pool := PoolForInterface(st.servers, l.iface);
    if st.pushMode == PUSH_TAGGED && l.routePush && pool.Some? then
      own + ClasslessPair(ClasslessValue(pool.value.gateway, IfaceIp(net, pool.value.iface), PushRoutes(st)))
    else own
  }

  function TagName(id: string): string {
    id + "_t"
  }

  function LeaseWrites(l: StaticLease, st: Dhcp, net: Config): seq<Write> {
    if !l.enabled || !l.managed then []
    else
      var id, opts := UciName(l.id), TagOptions(l, st, net);
      var host := HostPatch(l.mac, l.ip)["name" := One(DnsSafeHostname(l.hostname))];
      if opts == [] then [Write(id, "host", host["tag" := []])]
      else [Write(id, "host", host["tag" := [TagName(id)]]),
            Write(TagName(id), "tag", map["managed_by" := [MARKER], "dhcp_option" := opts])]
  }

  function AllLeaseWrites(ls: seq<StaticLease>, st: Dhcp, net: Config): seq<Write> {
    if ls == [] then []
    else AllLeaseWrites(ls[..|ls| - 1], st, net) + LeaseWrites(ls[|ls| - 1], st, net)
  }

  // ---- the access list ----

  predicate Listed(e: AclEntry) {
    e.enabled && e.managed
  }

  function DenyWrites(es: seq<AclEntry>): seq<Write> {
    if es == [] then []
    else
      var e := es[|es| - 1];
      DenyWrites(es[..|es| - 1])
      + (if Listed(e) then [Write(UciName(e.id), "host", HostPatch(e.mac, "ignore"))] else [])
  }

  /** Each listed MAC gets the next free address; the first failure ends the list. */
  function AllowWrites(es: seq<AclEntry>, pool: Alloc): seq<Write> {
    if es == [] then []
    else if !Listed(es[0]) then AllowWrites(es[1..], pool)
    else
      match pool.Next()
      case (None, _) => []
      case (Some(u), after) =>
        [Write(UciName(es[0].id), "host", HostPatch(es[0].mac, Render(u)))] + AllowWrites(es[1..], after)
  }

  function ReservedIps(ls: seq<StaticLease>): set<string> {
    set l | l in ls && l.enabled && l.managed && l.ip != "" :: l.ip
  }

  function ExcludedIps(servers: seq<DhcpServer>): set<string> {
    set s, ip | s in servers && ip in Expanded(s.exclude) :: ip
  }

  function UsedIps(st: Dhcp): set<string> {
    ReservedIps(st.statics) + ExcludedIps(st.servers)
  }

  predicate UsablePool(s: DhcpServer) {
    Serving(s) && RangeCount(s.ipStart, s.ipEnd).Some?
  }

  /** The first enabled managed pool with a proper range. */
  function InitialAlloc(servers: seq<DhcpServer>, used: set<string>): Alloc {
    if servers == [] then Alloc(false, 0, 0, used)
    else if UsablePool(servers[0]) then
      Alloc(true, ParseIp(servers[0].ipStart).value, ParseIp(servers[0].ipEnd).value, used)
    else InitialAlloc(servers[1..], used)
  }

  function AclWrites(st: Dhcp): seq<Write> {
    if st.acl.mode == ACL_WHITELIST then AllowWrites(st.acl.entries, InitialAlloc(st.servers, UsedIps(st)))
    else DenyWrites(st.acl.entries)
  }

  /** Every section `apply` wants in the DHCP configuration, in the order written. */
  function DhcpWrites(st: Dhcp, net: Config): seq<Write> {
    AllServerWrites(st.servers, st, net) + AllLeaseWrites(st.statics, st, net) + AclWrites(st)
  }

  // ---- sections the tool does not own ----

  /** A pool that somebody else configured. */
  predicate Stock(c: Config, ws: seq<Write>, s: string) {
    s in c && c[s].typ == "dhcp" && s !in Names(ws) && !CarriesMarker(c[s], MARKER)
  }

  function StockPatch(iface: string, busy: set<string>, dropped: bool): Patch {
    if dropped then
      map["start" := [], "limit" := []] + (if iface in busy then map[] else map["ignore" := ["1"]])
    else if iface in busy then map["ignore" := [], "start" := [], "limit" := []]
    else map[]
  }

  function RetireStock(c: Config, before: Config, ws: seq<Write>, busy: set<string>, drop: set<string>): Config {
    map s | s in c ::
      if Stock(before, ws, s) then
        Section(c[s].typ, Overlay(c[s].opts, StockPatch(First(Get(before, s, "interface")), busy, s in drop)))
      else c[s]
  }

  datatype Service = Dnsmasq | Odhcpd | NoService

  /** Which daemon serves DHCPv4; only an existing odhcpd section is touched. */
  function SelectServer(c: Config, before: Config, svc: Service, anyEnabled: bool): Config {
    if "odhcpd" !in before then c
    else
      match svc
      case Odhcpd => if anyEnabled then Put(c, "odhcpd", "maindhcp", ["1"]) else c
      case Dnsmasq => Put(c, "odhcpd", "maindhcp", ["0"])
      case NoService => c
  }

  predicate AnyServing(servers: seq<DhcpServer>) {
    exists s :: s in servers && Serving(s)
  }

  /** The DHCP configuration after `apply`. */
  function ApplyDhcp(c: Config, st: Dhcp, net: Config, svc: Service, drop: set<string>): Config {
    var ws := DhcpWrites(st, net);
    SelectServer(RetireStock(Project(c, ws, MARKER), c, ws, Busy(st.servers), drop), c, svc, AnyServing(st.servers))
  }

  // ---- the network configuration ----

  predicate HasNexthop(kind: string) {
    kind == "" || kind == "unicast"
  }

  function RoutePatch(r: Route): Patch {
    var hop := HasNexthop(r.kind);
    map["managed_by" := [MARKER],
        "interface" := if r.iface != "" && r.iface != "auto" then [r.iface] else [],
        "target" := if r.family == FAMILY_IPV6 then [r.target + "/" + Decimal(r.prefix)] else One(r.target),
        "netmask" := if r.family == FAMILY_IPV6 then [] else One(r.netmask),
        "type" := if hop then [] else One(r.kind),
        "gateway" := if hop then One(r.gateway) else [],
        "metric" := [Decimal(r.metric)],
        "mtu" := PositiveOr(r.mtu),
        "table" := PositiveOr(r.table)]
  }

  function RouteWrites(rs: seq<Route>): seq<Write> {
    if rs == [] then []
    else
      var r := rs[|rs| - 1];
      RouteWrites(rs[..|rs| - 1])
      + (if r.enabled && r.managed then
           [Write(UciName(r.id), if r.family == FAMILY_IPV6 then "route6" else "route", RoutePatch(r))]
         else [])
  }

  function RulePatch(p: PolicyRule): Patch {
    map["managed_by" := [MARKER], "src" := One(p.src), "dest" := One(p.dest), "in" := One(p.inIface),
        "lookup" := One(p.lookup), "priority" := PositiveOr(p.priority)]
  }

  function RuleWrites(ps: seq<PolicyRule>): seq<Write> {
    if ps == [] then []
    else
      var p := ps[|ps| - 1];
      RuleWrites(ps[..|ps| - 1])
      + (if p.enabled && p.managed then
           [Write(UciName(p.id), if p.family == FAMILY_IPV6 then "rule6" else "rule", RulePatch(p))]
         else [])
  }

  function NetWrites(st: Dhcp): seq<Write> {
    RouteWrites(st.routes) + RuleWrites(st.rules)
  }

  /** The network configuration after `apply`. */
  function ApplyNet(net: Config, st: Dhcp): Config {
    Project(net, NetWrites(st), MARKER)
  }
}
