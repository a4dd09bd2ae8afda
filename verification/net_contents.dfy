/** What the network file holds after `apply`: routes and policy rules, option by option. */
module NetContents {
  import opened Text
  import opened Uci
  import opened Projection
  import opened Sidecar
  import opened DhcpSpec

  lemma {:induction false} RouteAmong(rs: seq<Route>, r: Route)
    requires r in rs && r.enabled && r.managed
    ensures Write(UciName(r.id), if r.family == FAMILY_IPV6 then "route6" else "route", RoutePatch(r)) in RouteWrites(rs)
  {
    hide RoutePatch, UciName;
    var init, last := rs[..|rs| - 1], rs[|rs| - 1];
    assert rs == init + [last];
    if r != last {
      RouteAmong(init, r);
    }
  }

  lemma {:induction false} RuleAmong(ps: seq<PolicyRule>, p: PolicyRule)
    requires p in ps && p.enabled && p.managed
    ensures Write(UciName(p.id), if p.family == FAMILY_IPV6 then "rule6" else "rule", RulePatch(p)) in RuleWrites(ps)
  {
    hide RulePatch, UciName;
    var init, last := ps[..|ps| - 1], ps[|ps| - 1];
    assert ps == init + [last];
    if p != last {
      RuleAmong(init, p);
    }
  }

  lemma NetAfter(net: Config, st: Dhcp, w: Write, o: Opt)
    requires Consistent(NetWrites(st)) && w in NetWrites(st) && o in w.patch
    ensures w.sec in ApplyNet(net, st) && ApplyNet(net, st)[w.sec].typ == w.typ && Get(ApplyNet(net, st), w.sec, o) == w.patch[o]
  {
    hide NetWrites, Project, Overlay;
    ConsistentFinal(NetWrites(st), w);
    ProjectAt(net, NetWrites(st), MARKER, w.sec);
    OverlayGet(OldOpts(net, w.sec), w.patch, o);
  }

  /** A value unless it is empty, a number unless it is zero or less. */
  function Given(v: string): seq<string> {
    if v == "" then [] else [v]
  }

  function Positive(n: int): seq<string> {
    if n > 0 then [Decimal(n)] else []
  }

  lemma RouteHolds(r: Route)
    ensures var p := RoutePatch(r);
      "interface" in p && p["interface"] == (if r.iface == "" || r.iface == "auto" then [] else [r.iface])
      && "target" in p && p["target"] == (if r.family == "ipv6" then [r.target + "/" + Decimal(r.prefix)] else Given(r.target))
      && "netmask" in p && p["netmask"] == (if r.family == "ipv6" then [] else Given(r.netmask))
      && "metric" in p && p["metric"] == [Decimal(r.metric)]
    ensures var p := RoutePatch(r);
      "type" in p && p["type"] == (if r.kind == "" || r.kind == "unicast" then [] else [r.kind])
      && "gateway" in p && p["gateway"] == (if r.kind == "" || r.kind == "unicast" then Given(r.gateway) else [])
      && "mtu" in p && p["mtu"] == Positive(r.mtu) && "table" in p && p["table"] == Positive(r.table)
  {
    hide Decimal;
  }

  /** A route goes to its target, by prefix length or netmask, through its gateway and
      interface unless it is of a kind that has no next hop. */
  lemma RouteSaved(net: Config, st: Dhcp, r: Route)
    requires Consistent(NetWrites(st)) && r in st.routes && r.enabled && r.managed
    ensures var after, s := ApplyNet(net, st), UciName(r.id);
      s in after && after[s].typ == (if r.family == "ipv6" then "route6" else "route")
      && Get(after, s, "interface") == (if r.iface == "" || r.iface == "auto" then [] else [r.iface])
      && Get(after, s, "target") == (if r.family == "ipv6" then [r.target + "/" + Decimal(r.prefix)] else Given(r.target))
      && Get(after, s, "netmask") == (if r.family == "ipv6" then [] else Given(r.netmask))
      && Get(after, s, "type") == (if r.kind == "" || r.kind == "unicast" then [] else [r.kind])
      && Get(after, s, "gateway") == (if r.kind == "" || r.kind == "unicast" then Given(r.gateway) else [])
      && Get(after, s, "metric") == [Decimal(r.metric)] && Get(after, s, "mtu") == Positive(r.mtu)
      && Get(after, s, "table") == Positive(r.table)
  {
    hide ApplyNet, NetWrites, RoutePatch, UciName, Decimal, Given, Positive;
    var w := Write(UciName(r.id), if r.family == FAMILY_IPV6 then "route6" else "route", RoutePatch(r));
    assert w in NetWrites(st) by { RouteWanted(st, r); }
    RouteHolds(r);
    NetAfter(net, st, w, "interface");
    NetAfter(net, st, w, "target");
    NetAfter(net, st, w, "netmask");
    NetAfter(net, st, w, "type");
    NetAfter(net, st, w, "gateway");
    NetAfter(net, st, w, "metric");
    NetAfter(net, st, w, "mtu");
    NetAfter(net, st, w, "table");
  }

  lemma RouteWanted(st: Dhcp, r: Route)
    requires r in st.routes && r.enabled && r.managed
    ensures Write(UciName(r.id), if r.family == FAMILY_IPV6 then "route6" else "route", RoutePatch(r)) in NetWrites(st)
  {
    hide RouteWrites, RuleWrites, RoutePatch, UciName;
    RouteAmong(st.routes, r);
  }

  lemma RuleWanted(st: Dhcp, p: PolicyRule)
    requires p in st.rules && p.enabled && p.managed
    ensures Write(UciName(p.id), if p.family == FAMILY_IPV6 then "rule6" else "rule", RulePatch(p)) in NetWrites(st)
  {
    hide RouteWrites, RuleWrites, RulePatch, UciName;
    RuleAmong(st.rules, p);
  }

  lemma RuleHolds(p: PolicyRule)
    ensures var q := RulePatch(p);
      "src" in q && q["src"] == Given(p.src) && "dest" in q && q["dest"] == Given(p.dest) && "in" in q && q["in"] == Given(p.inIface)
      && "lookup" in q && q["lookup"] == Given(p.lookup) && "priority" in q && q["priority"] == Positive(p.priority)
  {
    hide Decimal;
  }

  /** A policy rule looks up its table for what comes from its source and interface and
      goes to its destination, at its priority. */
  lemma RuleSaved(net: Config, st: Dhcp, p: PolicyRule)
    requires Consistent(NetWrites(st)) && p in st.rules && p.enabled && p.managed
    ensures var after, s := ApplyNet(net, st), UciName(p.id);
      s in after && after[s].typ == (if p.family == "ipv6" then "rule6" else "rule")
      && Get(after, s, "src") == Given(p.src) && Get(after, s, "dest") == Given(p.dest) && Get(after, s, "in") == Given(p.inIface)
      && Get(after, s, "lookup") == Given(p.lookup) && Get(after, s, "priority") == Positive(p.priority)
  {
    hide ApplyNet, NetWrites, RulePatch, UciName, Given, Positive;
    var w := Write(UciName(p.id), if p.family == FAMILY_IPV6 then "rule6" else "rule", RulePatch(p));
    assert w in NetWrites(st) by { RuleWanted(st, p); }
    RuleHolds(p);
    NetAfter(net, st, w, "src");
    NetAfter(net, st, w, "dest");
    NetAfter(net, st, w, "in");
    NetAfter(net, st, w, "lookup");
    NetAfter(net, st, w, "priority");
  }
}
