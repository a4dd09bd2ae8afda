/** `apply` as it runs: loops over the working state fill one command batch per
    configuration file, and a second pass collects what is no longer wanted. Each
    piece is proved to have exactly the effect that the specification asks for. */
module Apply {
  import opened Text
  import opened Uci
  import opened Projection
  import opened Sidecar
  import opened NetUtil
  import opened Addresses
  import opened DhcpSpec

  // ---- writes one after the other ----

  lemma {:induction false} WriteAllConcat(c: Config, a: seq<Write>, b: seq<Write>)
    ensures WriteAll(c, a + b) == WriteAll(WriteAll(c, a), b)
    ensures Names(a + b) == Names(a) + Names(b)
  {
    hide WriteSec;
    if b == [] {
      assert a + b == a;
    } else {
      hide WriteAll, Names;
      var init, last := b[..|b| - 1], b[|b| - 1];
      WriteAllConcat(c, a, init);
      assert a + b == (a + init) + [last];
      WriteAllSnoc(c, a + init, last);
      assert b == init + [last];
      WriteAllSnoc(WriteAll(c, a), init, last);
    }
  }

  lemma WriteAllOne(c: Config, w: Write)
    ensures WriteAll(c, [w]) == WriteSec(c, w.sec, w.typ, w.patch)
    ensures Names([w]) == {w.sec}
  {
    WriteAllSnoc(c, [], w);
    assert [] + [w] == [w];
  }

  /** The section under way is one write. */
  lemma BegunIsWrite(h: Config, w: Write)
    ensures Begun(h, w.sec, Some(w.typ), w.patch) == WriteSec(h, w.sec, w.typ, w.patch) == WriteAll(h, [w])
  {
    WriteAllOne(h, w);
  }

  // ---- pushed routes ----

  method CollectPushRoutes(st: Dhcp) returns (rs: seq<Route>)
    ensures rs == PushRoutes(st)
  {
    rs := [];
    if st.pushMode == PUSH_ALL || st.pushMode == PUSH_TAGGED {
      for i := 0 to |st.routes|
        invariant rs == Pushable(st.routes[..i])
      {
        assert st.routes[..i + 1][..i] == st.routes[..i];
        var r := st.routes[i];
        if r.enabled && r.managed && r.family == FAMILY_IPV4 && r.pushToClients {
          rs := rs + [r];
        }
      }
      assert st.routes[..|st.routes|] == st.routes;
    }
  }

  method BuildClasslessValue(gw: string, nextHop: string, routes: seq<Route>) returns (v: string)
    ensures v == ClasslessValue(gw, nextHop, routes)
  {
    if gw == "" || nextHop == "" || |routes| == 0 {
      return "";
    }
    var parts := ["0.0.0.0/0", gw];
    for i := 0 to |routes|
      invariant parts == ["0.0.0.0/0", gw] + RouteParts(routes[..i], nextHop)
    {
      assert routes[..i + 1][..i] == routes[..i];
      parts := parts + [routes[i].target + "/" + Decimal(routes[i].prefix), nextHop];
    }
    assert routes[..|routes|] == routes;
    v := Join(parts, ",");
  }

  method EnabledIfaces(servers: seq<DhcpServer>) returns (busy: set<string>)
    ensures busy == Busy(servers)
  {
    busy := {};
    for i := 0 to |servers|
      invariant busy == Busy(servers[..i])
    {
      assert servers[..i + 1] == servers[..i] + [servers[i]];
      if servers[i].managed && servers[i].enabled && servers[i].iface != "" {
        busy := busy + {servers[i].iface};
      }
    }
    assert servers[..|servers|] == servers;
  }

  // ---- pools ----

  /** The head of a pool section, up to `ignore` and `dhcpv4`. */
  method EmitPoolBase(d: Batch, id: string, s: DhcpServer, st: Dhcp, net: Config, busy: set<string>)
    requires d.Valid() && busy == Busy(st.servers)
    modifies d
    ensures d.Writing(old(d.result), id, Some("dhcp")) && d.patch == PoolBase(s, st, net)
  {
    hide Begun, RunBatch, Busy, PoolAt, IfaceIp, IfaceMask, Numeral;
    var at := PoolAt(s, net);
    d.Open(id, "dhcp");
    d.SetKV(id, MANAGED_BY, MARKER);
    d.SetKV(id, "interface", s.iface);
    if s.enabled || s.iface !in busy {
      d.SetKV(id, "start", Numeral(at.start));
      d.SetKV(id, "limit", Numeral(at.limit));
    } else {
      d.DelK(id, "start");
      d.DelK(id, "limit");
    }
    if s.leaseMinutes <= 0 {
      d.SetKV(id, "leasetime", "infinite");
    } else {
      d.SetKV(id, "leasetime", Decimal(s.leaseMinutes) + "m");
    }
    if s.force {
      d.SetKV(id, "force", "1");
    } else {
      d.DelK(id, "force");
    }
    if s.enabled {
      d.DelK(id, "ignore");
      assert d.patch == PoolRange(s, st, net);
      d.SetKV(id, "dhcpv4", "server");
    } else if s.iface in busy {
      d.DelK(id, "ignore");
    } else {
      d.SetKV(id, "ignore", "1");
    }
  }

  /** The option list under way: p is the patch before it, vs what it holds so far. */
  ghost predicate Listing(d: Batch, id: string, p: Patch, vs: seq<string>)
    reads d
  {
    d.Valid() && d.sec == id && d.patch == p["dhcp_option" := vs]
  }

  method AppendOption(d: Batch, id: string, v: string, ghost p: Patch, ghost vs: seq<string>)
    requires Listing(d, id, p, vs)
    modifies d
    ensures Listing(d, id, p, vs + [v]) && d.head == old(d.head) && d.typ == old(d.typ)
  {
    hide Begun, RunBatch;
    d.Append(id, "dhcp_option", v);
  }

  method EmitGatewayAndDns(d: Batch, id: string, gateway: string, dns: string, ghost p: Patch)
    requires Listing(d, id, p, [])
    modifies d
    ensures Listing(d, id, p, GatewayAndDns(gateway, dns, gateway != "")) && d.head == old(d.head) && d.typ == old(d.typ)
  {
    hide Listing;
    ghost var vs: seq<string> := [];
    if gateway != "" {
      AppendOption(d, id, "3," + gateway, p, vs);
      vs := vs + ["3," + gateway];
    }
    if dns != "" {
      AppendOption(d, id, "6," + dns, p, vs);
      vs := vs + ["6," + dns];
    }
    assert vs == GatewayAndDns(gateway, dns, gateway != "");
  }

  method EmitClassless(d: Batch, id: string, v: string, ghost p: Patch, ghost vs: seq<string>)
    requires Listing(d, id, p, vs)
    modifies d
    ensures Listing(d, id, p, vs + ClasslessPair(v)) && d.head == old(d.head) && d.typ == old(d.typ)
  {
    hide Listing;
    if v != "" {
      AppendOption(d, id, "121," + v, p, vs);
      AppendOption(d, id, "249," + v, p, vs + ["121," + v]);
      assert vs + ["121," + v] + ["249," + v] == vs + ClasslessPair(v);
    } else {
      assert vs + ClasslessPair(v) == vs;
    }
  }

  method EmitCustom(d: Batch, id: string, os: seq<CustomOption>, ghost p: Patch, ghost vs: seq<string>)
    requires Listing(d, id, p, vs)
    modifies d
    ensures Listing(d, id, p, vs + CustomValues(os)) && d.head == old(d.head) && d.typ == old(d.typ)
  {
    hide Listing;
    assert vs + CustomValues(os[..0]) == vs;
    for i := 0 to |os|
      invariant Listing(d, id, p, vs + CustomValues(os[..i])) && d.head == old(d.head) && d.typ == old(d.typ)
    {
      assert os[..i + 1][..i] == os[..i];
      AppendOption(d, id, Decimal(os[i].code) + "," + os[i].value, p, vs + CustomValues(os[..i]));
      assert vs + CustomValues(os[..i + 1]) == vs + CustomValues(os[..i]) + [Decimal(os[i].code) + "," + os[i].value];
    }
    assert os[..|os|] == os;
  }

  method EmitPoolOptions(d: Batch, id: string, s: DhcpServer, st: Dhcp, net: Config, push: seq<Route>)
    requires d.Valid() && d.sec == id && push == PushRoutes(st)
    modifies d
    ensures d.Writing(old(d.head), id, old(d.typ))
    ensures d.patch == old(d.patch)["dhcp_option" := PoolOptions(s, st, net)]
  {
    hide Begun, RunBatch, GatewayAndDns, ClasslessValue, ClasslessPair, JoinDns, IfaceIp, PushRoutes, CustomValues;
    ghost var p, dns := d.patch, JoinDns(s.dnsPrimary, s.dnsSecondary);
    ghost var vs := GatewayAndDns(s.gateway, dns, s.gateway != "") + CustomValues(s.customOptions);
    d.DelK(id, "dhcp_option");
    EmitGatewayAndDns(d, id, s.gateway, JoinDns(s.dnsPrimary, s.dnsSecondary), p);
    EmitCustom(d, id, s.customOptions, p, GatewayAndDns(s.gateway, dns, s.gateway != ""));
    if st.pushMode == PUSH_ALL {
      var v := BuildClasslessValue(s.gateway, IfaceIp(net, s.iface), push);
      EmitClassless(d, id, v, p, vs);
    } else {
      assert vs + [] == vs;
    }
  }

  method EmitPool(d: Batch, id: string, s: DhcpServer, st: Dhcp, net: Config, busy: set<string>, push: seq<Route>)
    requires d.Valid() && busy == Busy(st.servers) && push == PushRoutes(st) && id == UciName(s.id)
    modifies d
    ensures d.Valid() && d.result == WriteAll(old(d.result), [PoolWrite(s, st, net)])
  {
    hide Begun, RunBatch, Busy, PoolBase, PoolOptions, PushRoutes, WriteAll, UciName;
    ghost var h := d.result;
    EmitPoolBase(d, id, s, st, net, busy);
    EmitPoolOptions(d, id, s, st, net, push);
    if st.acl.mode == ACL_WHITELIST {
      d.SetKV(id, "dynamicdhcp", "0");
    } else {
      d.DelK(id, "dynamicdhcp");
    }
    BegunIsWrite(h, PoolWrite(s, st, net));
  }

  // ---- hosts ----

  method EmitHost(d: Batch, id: string, mac: string, ip: string)
    requires d.Valid()
    modifies d
    ensures d.Writing(old(d.result), id, Some("host")) && d.patch == HostPatch(mac, ip)
    ensures d.result == WriteAll(old(d.result), [Write(id, "host", HostPatch(mac, ip))])
  {
    hide Begun, RunBatch, WriteAll;
    ghost var h := d.result;
    d.Open(id, "host");
    d.SetKV(id, MANAGED_BY, MARKER);
    d.SetKV(id, "mac", mac);
    d.SetKV(id, "ip", ip);
    BegunIsWrite(h, Write(id, "host", HostPatch(mac, ip)));
  }

  method EmitExcluded(d: Batch, id: string, exclude: seq<string>) returns (keep: set<string>)
    requires d.Valid()
    modifies d
    ensures d.Valid() && d.result == WriteAll(old(d.result), ExcludedWrites(id, Expanded(exclude)))
    ensures keep == Names(ExcludedWrites(id, Expanded(exclude)))
  {
    hide Begun, RunBatch, WriteAll, Expanded, PlaceholderMac, UciName, Names;
    ghost var h := d.result;
    var ips := ExpandExclude(exclude);
    keep := {};
    NoWrites(h);
    for i := 0 to |ips|
      invariant d.Valid() && d.result == WriteAll(h, ExcludedWrites(id, ips[..i]))
      invariant keep == Names(ExcludedWrites(id, ips[..i]))
    {
      assert ips[..i + 1][..i] == ips[..i];
      var xid := BuildUciName(id + "_x_" + ips[i]);
      WriteAllConcat(h, ExcludedWrites(id, ips[..i]), [ExcludedWrite(id, ips[i])]);
      WriteAllOne(h, ExcludedWrite(id, ips[i]));
      keep := keep + {xid};
      EmitHost(d, xid, PlaceholderMac(ips[i]), ips[i]);
    }
    assert ips[..|ips|] == ips;
  }

  lemma NoWrites(c: Config)
    ensures WriteAll(c, []) == c && Names([]) == {}
  {
  }

  method EmitServer(d: Batch, s: DhcpServer, st: Dhcp, net: Config, busy: set<string>, push: seq<Route>)
    returns (keep: set<string>)
    requires d.Valid() && busy == Busy(st.servers) && push == PushRoutes(st) && s.managed
    modifies d
    ensures d.Valid() && d.result == WriteAll(old(d.result), ServerWrites(s, st, net))
    ensures keep == Names(ServerWrites(s, st, net))
  {
    hide Begun, RunBatch, WriteAll, Busy, PushRoutes, PoolPatch, ExcludedWrites, Expanded, UciName, Names;
    ghost var h := d.result;
    var id := BuildUciName(s.id);
    WriteAllOne(h, PoolWrite(s, st, net));
    EmitPool(d, id, s, st, net, busy, push);
    keep := {id};
    if s.enabled {
      WriteAllConcat(h, [PoolWrite(s, st, net)], ExcludedWrites(id, Expanded(s.exclude)));
      var more := EmitExcluded(d, id, s.exclude);
      keep := keep + more;
    } else {
      assert [PoolWrite(s, st, net)] + [] == [PoolWrite(s, st, net)];
    }
  }

  method EmitServers(d: Batch, st: Dhcp, net: Config, busy: set<string>, push: seq<Route>)
    returns (keep: set<string>, any: bool)
    requires d.Valid() && busy == Busy(st.servers) && push == PushRoutes(st)
    modifies d
    ensures d.Valid() && d.result == WriteAll(old(d.result), AllServerWrites(st.servers, st, net))
    ensures keep == Names(AllServerWrites(st.servers, st, net)) && any == AnyServing(st.servers)
  {
    hide Begun, RunBatch, WriteAll, Busy, PushRoutes, ServerWrites, Names;
    ghost var h, ss := d.result, st.servers;
    keep, any := {}, false;
    NoWrites(h);
    for i := 0 to |st.servers|
      invariant d.Valid() && d.result == WriteAll(h, AllServerWrites(ss[..i], st, net))
      invariant keep == Names(AllServerWrites(ss[..i], st, net))
      invariant any <==> AnyServing(ss[..i])
    {
      var s := st.servers[i];
      assert ss[..i + 1] == ss[..i] + [s] && ss[..i + 1][..i] == ss[..i];
      AnyServingSnoc(ss[..i], s);
      WriteAllConcat(h, AllServerWrites(ss[..i], st, net), ServerWrites(s, st, net));
      if s.managed {
        var more := EmitServer(d, s, st, net, busy, push);
        keep := keep + more;
        any := any || s.enabled;
      } else {
        UnmanagedWritesNothing(d.result, s, st, net);
      }
    }
    assert ss[..|ss|] == ss;
  }

  lemma AnyServingSnoc(ss: seq<DhcpServer>, s: DhcpServer)
    ensures AnyServing(ss + [s]) <==> AnyServing(ss) || Serving(s)
  {
    assert s in ss + [s];
    assert forall x :: x in ss ==> x in ss + [s];
  }

  lemma UnmanagedWritesNothing(c: Config, s: DhcpServer, st: Dhcp, net: Config)
    requires !s.managed
    ensures WriteAll(c, ServerWrites(s, st, net)) == c && Names(ServerWrites(s, st, net)) == {}
  {
    NoWrites(c);
  }

  // ---- reservations ----

  method FindPool(servers: seq<DhcpServer>, iface: string) returns (pool: Option<DhcpServer>)
    ensures pool == PoolForInterface(servers, iface)
  {
    if iface != "" {
      for i := 0 to |servers|
        invariant FirstServing(servers, iface, false) == FirstServing(servers[i..], iface, false)
      {
        var s := servers[i];
        if s.managed && s.enabled && s.iface == iface {
          return Some(s);
        }
      }
    }
    for i := 0 to |servers|
      invariant iface != "" ==> FirstServing(servers, iface, false).None?
      invariant FirstServing(servers, iface, true) == FirstServing(servers[i..], iface, true)
    {
      if servers[i].managed && servers[i].enabled {
        return Some(servers[i]);
      }
    }
    pool := None;
  }

  method HostTagOptions(l: StaticLease, st: Dhcp, net: Config, push: seq<Route>) returns (opts: seq<string>)
    requires push == PushRoutes(st)
    ensures opts == TagOptions(l, st, net)
  {
    hide ClasslessValue, PushRoutes, PoolForInterface, IfaceIp, JoinDns;
    opts := [];
    if TrimSpace(l.gateway) != "" {
      opts := opts + ["3," + l.gateway];
    }
    var dns := JoinDns(l.dnsPrimary, l.dnsSecondary);
    if dns != "" {
      opts := opts + ["6," + dns];
    }
    assert opts == GatewayAndDns(l.gateway, dns, TrimSpace(l.gateway) != "");
    if st.pushMode == PUSH_TAGGED && l.routePush {
      var pool := FindPool(st.servers, l.iface);
      if pool.Some? {
        var v := BuildClasslessValue(pool.value.gateway, IfaceIp(net, pool.value.iface), push);
        if v != "" {
          opts := opts + ["121," + v, "249," + v];
        }
      }
    }
  }

  lemma PutElsewhere(c: Config, sec: string, o: Opt, vs: seq<string>, b: Write)
    requires sec != b.sec
    ensures Put(WriteSec(c, b.sec, b.typ, b.patch), sec, o, vs) == WriteSec(Put(c, sec, o, vs), b.sec, b.typ, b.patch)
  {
    hide Overlay, OptPut;
  }

  /** An option written to one section after another section has been written. */
  lemma LateOption(c: Config, a: Write, b: Write, o: Opt, v: string)
    requires a.sec != b.sec && v != ""
    ensures Exec(WriteSec(WriteSec(c, a.sec, a.typ, a.patch), b.sec, b.typ, b.patch), SetOpt(a.sec, o, v))
      == WriteAll(c, [Write(a.sec, a.typ, a.patch[o := [v]]), b])
  {
    hide WriteSec, WriteAll, Put;
    var late := Write(a.sec, a.typ, a.patch[o := [v]]);
    PutElsewhere(WriteSec(c, a.sec, a.typ, a.patch), a.sec, o, [v], b);
    PutAfterWrite(c, a.sec, a.typ, a.patch, o, [v]);
    WriteAllConcat(c, [late], [b]);
    WriteAllOne(c, late);
    WriteAllOne(WriteAll(c, [late]), b);
    assert [late] + [b] == [late, b];
  }

  method EmitTag(d: Batch, tagid: string, opts: seq<string>)
    requires d.Valid()
    modifies d
    ensures d.Valid()
    ensures d.result == WriteSec(old(d.result), tagid, "tag", map["managed_by" := [MARKER], "dhcp_option" := opts])
  {
    hide Begun, RunBatch, WriteSec;
    ghost var h := d.result;
    d.Open(tagid, "tag");
    d.SetKV(tagid, MANAGED_BY, MARKER);
    ghost var p := d.patch;
    d.DelK(tagid, "dhcp_option");
    d.AppendAll(tagid, "dhcp_option", opts);
    assert [] + opts == opts;
    assert d.patch == p["dhcp_option" := opts];
    BegunIsWrite(h, Write(tagid, "tag", map["managed_by" := [MARKER], "dhcp_option" := opts]));
  }

  function LeaseHost(l: StaticLease): Patch {
    HostPatch(l.mac, l.ip)["name" := One(DnsSafeHostname(l.hostname))]
  }

  method EmitLeaseHost(d: Batch, id: string, l: StaticLease)
    requires d.Valid()
    modifies d
    ensures d.Writing(old(d.result), id, Some("host")) && d.patch == LeaseHost(l)
  {
    hide Begun, RunBatch, WriteAll, DnsSafeHostname, HostPatch;
    EmitHost(d, id, l.mac, l.ip);
    var name := DnsSafeHostname(l.hostname);
    if name != "" {
      d.SetKV(id, "name", name);
    } else {
      assert One(name) == [];
      d.DelK(id, "name");
      assert d.patch == HostPatch(l.mac, l.ip)["name" := One(name)];
    }
  }

  method EmitLease(d: Batch, l: StaticLease, st: Dhcp, net: Config, push: seq<Route>) returns (keep: set<string>)
    requires d.Valid() && push == PushRoutes(st) && l.enabled && l.managed
    modifies d
    ensures d.Valid() && d.result == WriteAll(old(d.result), LeaseWrites(l, st, net))
    ensures keep == Names(LeaseWrites(l, st, net))
  {
    hide Begun, RunBatch, WriteAll, WriteSec, PushRoutes, TagOptions, DnsSafeHostname, UciName, Exec, HostPatch;
    ghost var h := d.result;
    var id := BuildUciName(l.id);
    keep := {id};
    EmitLeaseHost(d, id, l);
    ghost var host := Write(id, "host", LeaseHost(l));
    BegunIsWrite(h, host);
    var opts := HostTagOptions(l, st, net, push);
    if |opts| > 0 {
      var tagid := id + "_t";
      keep := keep + {tagid};
      ghost var tag := Write(tagid, "tag", map["managed_by" := [MARKER], "dhcp_option" := opts]);
      EmitTag(d, tagid, opts);
      LateOption(h, host, tag, "tag", tagid);
      d.Emit(SetOpt(id, "tag", tagid));
      LeaseWithTag(l, st, net);
    } else {
      d.DelK(id, "tag");
      BegunIsWrite(h, Write(id, "host", LeaseHost(l)["tag" := []]));
      LeaseWithoutTag(l, st, net);
    }
  }

  lemma LeaseWithTag(l: StaticLease, st: Dhcp, net: Config)
    requires l.enabled && l.managed && TagOptions(l, st, net) != []
    ensures var id := UciName(l.id);
      LeaseWrites(l, st, net) ==
      [Write(id, "host", LeaseHost(l)["tag" := [TagName(id)]]),
       Write(TagName(id), "tag", map["managed_by" := [MARKER], "dhcp_option" := TagOptions(l, st, net)])]
    ensures Names(LeaseWrites(l, st, net)) == {UciName(l.id), UciName(l.id) + "_t"}
  {
    hide TagOptions, UciName, HostPatch, DnsSafeHostname;
    var ws := LeaseWrites(l, st, net);
    assert ws[0] in ws && ws[1] in ws;
  }

  lemma LeaseWithoutTag(l: StaticLease, st: Dhcp, net: Config)
    requires l.enabled && l.managed && TagOptions(l, st, net) == []
    ensures LeaseWrites(l, st, net) == [Write(UciName(l.id), "host", LeaseHost(l)["tag" := []])]
    ensures Names(LeaseWrites(l, st, net)) == {UciName(l.id)}
  {
    hide TagOptions, UciName, HostPatch, DnsSafeHostname;
    WriteAllOne(map[], LeaseWrites(l, st, net)[0]);
  }

  method EmitLeases(d: Batch, st: Dhcp, net: Config, push: seq<Route>) returns (keep: set<string>)
    requires d.Valid() && push == PushRoutes(st)
    modifies d
    ensures d.Valid() && d.result == WriteAll(old(d.result), AllLeaseWrites(st.statics, st, net))
    ensures keep == Names(AllLeaseWrites(st.statics, st, net))
  {
    hide Begun, RunBatch, WriteAll, PushRoutes, LeaseWrites, Names;
    ghost var h, ls := d.result, st.statics;
    keep := {};
    NoWrites(h);
    for i := 0 to |st.statics|
      invariant d.Valid() && d.result == WriteAll(h, AllLeaseWrites(ls[..i], st, net))
      invariant keep == Names(AllLeaseWrites(ls[..i], st, net))
    {
      var l := st.statics[i];
      assert ls[..i + 1] == ls[..i] + [l] && ls[..i + 1][..i] == ls[..i];
      WriteAllConcat(h, AllLeaseWrites(ls[..i], st, net), LeaseWrites(l, st, net));
      if l.enabled && l.managed {
        var more := EmitLease(d, l, st, net, push);
        keep := keep + more;
      } else {
        SkippedLease(d.result, l, st, net);
      }
    }
    assert ls[..|ls|] == ls;
  }

  lemma SkippedLease(c: Config, l: StaticLease, st: Dhcp, net: Config)
    requires !l.enabled || !l.managed
    ensures WriteAll(c, LeaseWrites(l, st, net)) == c && Names(LeaseWrites(l, st, net)) == {}
  {
    NoWrites(c);
  }

  // ---- the access list ----

  method UsedPoolIps(st: Dhcp) returns (used: set<string>)
    ensures used == UsedIps(st)
  {
    hide Expanded;
    used := {};
    for i := 0 to |st.statics|
      invariant used == ReservedIps(st.statics[..i])
    {
      var l := st.statics[i];
      assert st.statics[..i + 1] == st.statics[..i] + [l];
      if l.enabled && l.managed && l.ip != "" {
        used := used + {l.ip};
      }
    }
    assert st.statics[..|st.statics|] == st.statics;
    for i := 0 to |st.servers|
      invariant used == ReservedIps(st.statics) + ExcludedIps(st.servers[..i])
    {
      assert st.servers[..i + 1] == st.servers[..i] + [st.servers[i]];
      var ips := ExpandExclude(st.servers[i].exclude);
      used := used + set ip | ip in ips;
    }
    assert st.servers[..|st.servers|] == st.servers;
  }

  method WhitelistAllocator(servers: seq<DhcpServer>, used: set<string>) returns (next: Allocator)
    ensures fresh(next) && next.State() == InitialAlloc(servers, used)
  {
    hide ParseIp;
    for i := 0 to |servers|
      invariant InitialAlloc(servers, used) == InitialAlloc(servers[i..], used)
    {
      var s := servers[i];
      if s.managed && s.enabled {
        var su, eu := ParseIp(s.ipStart), ParseIp(s.ipEnd);
        if su.Some? && eu.Some? && eu.value >= su.value {
          next := new Allocator(true, su.value, eu.value, used);
          return;
        }
      }
    }
    next := new Allocator(false, 0, 0, used);
  }

  lemma AllowStep(es: seq<AclEntry>, i: nat, pool: Alloc)
    requires i < |es|
    ensures !Listed(es[i]) ==> AllowWrites(es[i..], pool) == AllowWrites(es[i + 1..], pool)
    ensures Listed(es[i]) && pool.Next().0.None? ==> AllowWrites(es[i..], pool) == []
    ensures Listed(es[i]) && pool.Next().0.Some? ==>
      AllowWrites(es[i..], pool) ==
      [Write(UciName(es[i].id), "host", HostPatch(es[i].mac, Render(pool.Next().0.value)))]
      + AllowWrites(es[i + 1..], pool.Next().1)
  {
    hide Render, Scan, UciName, HostPatch;
    assert es[i..][1..] == es[i + 1..];
  }

  lemma {:induction false} InitialUsed(servers: seq<DhcpServer>, used: set<string>)
    ensures InitialAlloc(servers, used).used == used
  {
    hide ParseIp;
    if servers != [] {
      InitialUsed(servers[1..], used);
    }
  }

  lemma NothingAllowed(es: seq<AclEntry>, pool: Alloc)
    ensures AllowWrites(es[|es|..], pool) == []
  {
    assert es[|es|..] == [];
  }

  lemma NextIsNamed(pool: Alloc)
    ensures pool.Next().0.Some? ==> Render(pool.Next().0.value) != ""
  {
    hide Render;
    if pool.Next().0.Some? {
      RenderNonEmpty(pool.Next().0.value);
    }
  }

  /** Each listed MAC is given the next free address until none is left. */
  method EmitAllowed(d: Batch, st: Dhcp) returns (keep: set<string>)
    requires d.Valid() && |UsedIps(st)| + |st.acl.entries| < TWO32
    modifies d
    ensures d.Valid()
    ensures var ws := AllowWrites(st.acl.entries, InitialAlloc(st.servers, UsedIps(st)));
      d.result == WriteAll(old(d.result), ws) && keep == Names(ws)
  {
    hide Begun, RunBatch, WriteAll, Names, AllowWrites, InitialAlloc, UsedIps, UciName, HostPatch, Render;
    ghost var h, es := d.result, st.acl.entries;
    var used := UsedPoolIps(st);
    var next := WhitelistAllocator(st.servers, used);
    InitialUsed(st.servers, used);
    ghost var all := AllowWrites(es, next.State());
    ghost var done: seq<Write> := [];
    keep := {};
    NoWrites(h);
    assert es[0..] == es;
    for i := 0 to |st.acl.entries|
      invariant d.Valid() && d.result == WriteAll(h, done) && keep == Names(done)
      invariant fresh(next) && |next.used| <= |used| + i
      invariant done + AllowWrites(es[i..], next.State()) == all
    {
      var e := st.acl.entries[i];
      AllowStep(es, i, next.State());
      NextIsNamed(next.State());
      if e.enabled && e.managed {
        var ip := next.Next();
        if ip == "" {
          assert done + [] == done;
          return;
        }
        var id := BuildUciName(e.id);
        ghost var w := Write(id, "host", HostPatch(e.mac, ip));
        keep := keep + {id};
        EmitHost(d, id, e.mac, ip);
        WriteAllConcat(h, done, [w]);
        WriteAllOne(h, w);
        done := done + [w];
      }
    }
    NothingAllowed(es, next.State());
    assert done + [] == done;
  }

  method EmitDenied(d: Batch, es: seq<AclEntry>) returns (keep: set<string>)
    requires d.Valid()
    modifies d
    ensures d.Valid() && d.result == WriteAll(old(d.result), DenyWrites(es)) && keep == Names(DenyWrites(es))
  {
    hide Begun, RunBatch, WriteAll, Names, UciName, HostPatch;
    ghost var h := d.result;
    keep := {};
    NoWrites(h);
    for i := 0 to |es|
      invariant d.Valid() && d.result == WriteAll(h, DenyWrites(es[..i])) && keep == Names(DenyWrites(es[..i]))
    {
      var e := es[i];
      assert es[..i + 1][..i] == es[..i];
      if e.enabled && e.managed {
        var id := BuildUciName(e.id);
        ghost var w := Write(id, "host", HostPatch(e.mac, "ignore"));
        keep := keep + {id};
        EmitHost(d, id, e.mac, "ignore");
        WriteAllConcat(h, DenyWrites(es[..i]), [w]);
        WriteAllOne(h, w);
      } else {
        assert DenyWrites(es[..i]) + [] == DenyWrites(es[..i]);
      }
    }
    assert es[..|es|] == es;
  }
}
