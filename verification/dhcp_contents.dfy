/** What the sections of the DHCP file hold after `apply`, option by option, for pools,
    reservations and their tags, and the stock sections of other hands. */
module DhcpContents {
  import opened Text
  import opened Sequences
  import opened Uci
  import opened Projection
  import opened Sidecar
  import opened NetUtil
  import opened Addresses
  import opened DhcpSpec
  import opened Served
  import opened Installed
  import Machine

  // ---- the text of a DHCP option ----

  /** The list has an entry for the option of that number with that value. */
  predicate Announces(os: seq<string>, code: int, v: string) {
    Decimal(code) + "," + v in os
  }

  ghost predicate WellFormed(os: seq<string>) {
    forall o :: o in os ==> exists code, v :: o == Decimal(code) + "," + v
  }

  lemma DecimalInjective(m: int, n: int)
    requires Decimal(m) == Decimal(n)
    ensures m == n
  {
    hide Numeral;
    assert m >= 0 ==> IsDigit(Decimal(m)[0]);
    assert n >= 0 ==> IsDigit(Decimal(n)[0]);
    if m < 0 {
      assert Decimal(m)[1..] == Numeral(-m) && Decimal(n)[1..] == Numeral(-n);
      NumeralInjective(-m, -n);
    } else {
      NumeralInjective(m, n);
    }
  }

  lemma NoComma(n: int)
    ensures ',' !in Decimal(n)
  {
    hide Numeral;
  }

  /** Number and value can be told from the text. */
  lemma OptionText(m: int, v: string, n: int, w: string)
    ensures Decimal(m) + "," + v == Decimal(n) + "," + w <==> m == n && v == w
  {
    hide Decimal;
    NoComma(m);
    NoComma(n);
    if Decimal(m) + "," + v == Decimal(n) + "," + w {
      IndexOfHead(Decimal(m), ',', v);
      IndexOfHead(Decimal(n), ',', w);
      var s, a, b := Decimal(m) + [','] + v, Decimal(m), Decimal(n);
      assert s == b + [','] + w && |a| == |b|;
      assert a == s[..|a|] == b;
      DecimalInjective(m, n);
      assert v == s[|a| + 1..] == w;
    }
  }

  lemma Literals()
    ensures Decimal(3) == "3" && Decimal(6) == "6" && Decimal(121) == "121" && Decimal(249) == "249"
  {
    assert Numeral(12) == "12" && Numeral(24) == "24";
  }

  // ---- what the values are ----

  /** The DNS servers that are not blank, with a comma between them. */
  predicate DnsList(v: string, a: string, b: string) {
    || (TrimSpace(a) != "" && TrimSpace(b) != "" && v == a + "," + b)
    || (TrimSpace(a) != "" && TrimSpace(b) == "" && v == a)
    || (TrimSpace(a) == "" && TrimSpace(b) != "" && v == b)
  }

  lemma DnsListIs(v: string, a: string, b: string)
    ensures DnsList(v, a, b) <==> v != "" && v == JoinDns(a, b)
  {
    hide TrimSpace;
    BlankTrims();
    JoinTwo(a, b);
  }

  lemma BlankTrims()
    ensures TrimSpace("") == ""
  {
  }

  lemma JoinTwo(a: string, b: string)
    ensures Join([], ",") == "" && Join([a], ",") == a && Join([a, b], ",") == a + "," + b
  {
    JoinHead(a, [b], ",");
  }

  /** The routes that clients are to be told. */
  function PushedRoutes(routes: seq<Route>): seq<Route> {
    Filter(routes, (r: Route) => r.enabled && r.managed && r.family == "ipv4" && r.pushToClients)
  }

  lemma {:induction false} PushedAre(routes: seq<Route>)
    ensures PushedRoutes(routes) == Pushable(routes)
  {
    if routes != [] {
      PushedAre(routes[..|routes| - 1]);
      FilterSnoc(routes, (r: Route) => r.enabled && r.managed && r.family == "ipv4" && r.pushToClients);
    }
  }

  /** The fields of options 121 and 249: destination and next hop in turn, the default
      route through the gateway first, then each pushed route through the interface. */
  ghost predicate ClasslessFields(fs: seq<string>, gw: string, hop: string, rs: seq<Route>) {
    && |fs| == 2 + 2 * |rs| && fs[0] == "0.0.0.0/0" && fs[1] == gw
    && (forall k :: 0 <= k < |rs| ==> fs[2 + 2 * k] == rs[k].target + "/" + Decimal(rs[k].prefix) && fs[3 + 2 * k] == hop)
  }

  ghost predicate Classless(v: string, gw: string, hop: string, routes: seq<Route>) {
    && gw != "" && hop != "" && PushedRoutes(routes) != []
    && exists fs :: v == Join(fs, ",") && ClasslessFields(fs, gw, hop, PushedRoutes(routes))
  }

  lemma {:induction false} PartsAre(rs: seq<Route>, hop: string)
    ensures |RouteParts(rs, hop)| == 2 * |rs|
    ensures forall k :: 0 <= k < |rs| ==>
      RouteParts(rs, hop)[2 * k] == rs[k].target + "/" + Decimal(rs[k].prefix) && RouteParts(rs, hop)[2 * k + 1] == hop
  {
    hide Decimal;
    if rs != [] {
      PartsAre(rs[..|rs| - 1], hop);
    }
  }

  lemma FieldsUnique(fs: seq<string>, gs: seq<string>, gw: string, hop: string, rs: seq<Route>)
    requires ClasslessFields(fs, gw, hop, rs) && ClasslessFields(gs, gw, hop, rs)
    ensures fs == gs
  {
    forall i | 0 <= i < |fs| ensures fs[i] == gs[i] {
      if i >= 2 {
        var k := (i - 2) / 2;
        assert i == 2 + 2 * k || i == 3 + 2 * k;
      }
    }
  }

  lemma ClasslessIs(v: string, gw: string, hop: string, routes: seq<Route>)
    ensures Classless(v, gw, hop, routes) <==> v != "" && v == ClasslessValue(gw, hop, Pushable(routes))
  {
    hide Decimal, Pushable, PushedRoutes;
    PushedAre(routes);
    var rs := Pushable(routes);
    if gw != "" && hop != "" && rs != [] {
      var fs := ["0.0.0.0/0", gw] + RouteParts(rs, hop);
      PartsAre(rs, hop);
      assert ClasslessFields(fs, gw, hop, rs);
      JoinHead("0.0.0.0/0", [gw] + RouteParts(rs, hop), ",");
      assert fs == ["0.0.0.0/0"] + ([gw] + RouteParts(rs, hop));
      if Classless(v, gw, hop, routes) {
        var gs :| v == Join(gs, ",") && ClasslessFields(gs, gw, hop, rs);
        FieldsUnique(fs, gs, gw, hop, rs);
      }
    }
  }

  /** The address that an interface has is read up to the slash. */
  lemma AddressRead(net: Config, iface: string, ip: string, rest: string)
    requires Get(net, iface, "ipaddr") == [ip + rest] && TrimSpace(ip + rest) == ip + rest
    requires '/' !in ip && (rest == "" || rest[0] == '/')
    ensures IfaceIp(net, iface) == ip
  {
    hide TrimSpace;
    assert Join([ip + rest], " ") == ip + rest;
    if rest == "" {
      assert ip + rest == ip;
      IndexOfNone(ip, '/');
    } else {
      IndexOfHead(ip, '/', rest[1..]);
      assert ip + rest == ip + ['/'] + rest[1..];
    }
  }

  lemma MaskRead(net: Config, iface: string, mask: string)
    requires Get(net, iface, "netmask") == [mask] && Trimmed(mask)
    ensures IfaceMask(net, iface) == mask
  {
    hide TrimSpace;
    TrimmedIsFixed(mask);
    assert Join([mask], " ") == mask;
  }

  // ---- pools ----

  lemma {:induction false} CustomAnnounced(os: seq<CustomOption>, code: int, v: string)
    ensures Announces(CustomValues(os), code, v) <==> exists o :: o in os && o.code == code && o.value == v
    ensures WellFormed(CustomValues(os))
  {
    hide Decimal;
    if os != [] {
      var init, last := os[..|os| - 1], os[|os| - 1];
      CustomAnnounced(init, code, v);
      OptionText(code, v, last.code, last.value);
      assert os == init + [last];
    }
  }

  lemma GatewayAnnounced(gw: string, dns: string, has: bool, code: int, v: string)
    ensures Announces(GatewayAndDns(gw, dns, has), code, v) <==> (code == 3 && has && v == gw) || (code == 6 && dns != "" && v == dns)
    ensures WellFormed(GatewayAndDns(gw, dns, has))
  {
    hide Decimal;
    Literals();
    OptionText(code, v, 3, gw);
    OptionText(code, v, 6, dns);
    assert "3," + gw == Decimal(3) + "," + gw && "6," + dns == Decimal(6) + "," + dns;
  }

  lemma PairAnnounced(w: string, code: int, v: string)
    ensures Announces(ClasslessPair(w), code, v) <==> (code == 121 || code == 249) && w != "" && v == w
    ensures WellFormed(ClasslessPair(w))
  {
    hide Decimal;
    Literals();
    OptionText(code, v, 121, w);
    OptionText(code, v, 249, w);
    assert "121," + w == Decimal(121) + "," + w && "249," + w == Decimal(249) + "," + w;
  }

  lemma AnnouncesEither(a: seq<string>, b: seq<string>, code: int, v: string)
    ensures Announces(a + b, code, v) <==> Announces(a, code, v) || Announces(b, code, v)
    ensures WellFormed(a) && WellFormed(b) ==> WellFormed(a + b)
  {
    hide Decimal;
  }

  /** The options that a pool's clients are to be told. */
  ghost predicate PoolTells(p: DhcpServer, st: Dhcp, net: Config, code: int, v: string) {
    || (code == 3 && p.gateway != "" && v == p.gateway)
    || (code == 6 && DnsList(v, p.dnsPrimary, p.dnsSecondary))
    || ((code == 121 || code == 249) && st.pushMode == "all" && Classless(v, p.gateway, IfaceIp(net, p.iface), st.routes))
    || (exists o :: o in p.customOptions && o.code == code && o.value == v)
  }

  lemma PoolOptionsTell(p: DhcpServer, st: Dhcp, net: Config, code: int, v: string)
    ensures Announces(PoolOptions(p, st, net), code, v) <==> PoolTells(p, st, net, code, v)
    ensures WellFormed(PoolOptions(p, st, net))
  {
    hide Decimal, JoinDns, DnsList, Classless, ClasslessValue, IfaceIp, Pushable, GatewayAndDns, CustomValues, ClasslessPair, Announces, WellFormed;
    var gd := GatewayAndDns(p.gateway, JoinDns(p.dnsPrimary, p.dnsSecondary), p.gateway != "");
    var w := ClasslessValue(p.gateway, IfaceIp(net, p.iface), Pushable(st.routes));
    GatewayAnnounced(p.gateway, JoinDns(p.dnsPrimary, p.dnsSecondary), p.gateway != "", code, v);
    DnsListIs(v, p.dnsPrimary, p.dnsSecondary);
    CustomAnnounced(p.customOptions, code, v);
    PairAnnounced(w, code, v);
    ClasslessIs(v, p.gateway, IfaceIp(net, p.iface), st.routes);
    NothingAnnounced(code, v);
    AnnouncesEither(gd, CustomValues(p.customOptions), code, v);
    AnnouncesEither(gd + CustomValues(p.customOptions), if st.pushMode == PUSH_ALL then ClasslessPair(w) else [], code, v);
  }

  lemma NothingAnnounced(code: int, v: string)
    ensures !Announces([], code, v) && WellFormed([])
  {
  }

  lemma PoolAmong(st: Dhcp, net: Config, p: DhcpServer)
    requires p in st.servers && p.managed
    ensures PoolWrite(p, st, net) in DhcpWrites(st, net)
  {
    hide PoolWrite, DhcpWrites;
    WritesAreProper(st, net);
  }

  lemma PoolPatchHolds(p: DhcpServer, st: Dhcp, net: Config)
    ensures var q := PoolPatch(p, st, net);
      "dhcp_option" in q && q["dhcp_option"] == PoolOptions(p, st, net)
      && "dynamicdhcp" in q && q["dynamicdhcp"] == (if st.acl.mode == "whitelist" then ["0"] else [])
      && "leasetime" in q && q["leasetime"] == [if p.leaseMinutes <= 0 then "infinite" else Decimal(p.leaseMinutes) + "m"]
      && "force" in q && q["force"] == (if p.force then ["1"] else [])
      && "interface" in q && q["interface"] == One(p.iface)
    ensures var q := PoolPatch(p, st, net);
      ("dhcpv4" in q <==> p.enabled) && (p.enabled ==> q["dhcpv4"] == ["server"])
  {
    hide PoolOptions, PoolAt, Busy, Decimal;
  }

  /** A wanted section keeps the options that nothing is said about. */
  lemma WantedKeeps(c: Config, st: Dhcp, net: Config, svc: Service, drop: set<string>, w: Write, o: Opt)
    requires Consistent(DhcpWrites(st, net)) && w in DhcpWrites(st, net) && o !in w.patch && !MainDhcp(w.sec, o)
    ensures Get(ApplyDhcp(c, st, net, svc, drop), w.sec, o) == Get(c, w.sec, o)
  {
    hide DhcpWrites, ApplyDhcp;
    ConsistentFinal(DhcpWrites(st, net), w);
    ApplyWanted(c, st, net, svc, drop, w.sec, o);
  }

  lemma NoDaemonOption(s: string, o: Opt)
    requires o != "maindhcp"
    ensures !MainDhcp(s, o)
  {
  }

  /** The options of a managed pool: the gateway under 3, the DNS servers under 6, the
      pushed routes under 121 and 249, the user's own, and nothing else. */
  lemma PoolOptionsSaved(c: Config, st: Dhcp, net: Config, svc: Service, drop: set<string>, p: DhcpServer, code: int, v: string)
    requires Consistent(DhcpWrites(st, net)) && p in st.servers && p.managed
    ensures Announces(Get(ApplyDhcp(c, st, net, svc, drop), UciName(p.id), "dhcp_option"), code, v) <==> PoolTells(p, st, net, code, v)
    ensures WellFormed(Get(ApplyDhcp(c, st, net, svc, drop), UciName(p.id), "dhcp_option"))
  {
    hide ApplyDhcp, DhcpWrites, PoolPatch, UciName, MainDhcp, Announces, WellFormed, PoolTells, PoolOptions;
    PoolAmong(st, net, p);
    PoolPatchHolds(p, st, net);
    NoDaemonOption(UciName(p.id), "dhcp_option");
    WantedHolds(c, st, net, svc, drop, PoolWrite(p, st, net), "dhcp_option");
    PoolOptionsTell(p, st, net, code, v);
  }

  /** Its lease time, and whether it is forced, serves DHCPv4, and serves only known
      clients. */
  lemma PoolScalarsSaved(c: Config, st: Dhcp, net: Config, svc: Service, drop: set<string>, p: DhcpServer)
    requires Consistent(DhcpWrites(st, net)) && p in st.servers && p.managed
    ensures var after, s := ApplyDhcp(c, st, net, svc, drop), UciName(p.id);
      s in after && after[s].typ == "dhcp"
      && Get(after, s, "interface") == (if p.iface == "" then [] else [p.iface])
      && Get(after, s, "leasetime") == [if p.leaseMinutes <= 0 then "infinite" else Decimal(p.leaseMinutes) + "m"]
      && Get(after, s, "force") == (if p.force then ["1"] else [])
      && Get(after, s, "dynamicdhcp") == (if st.acl.mode == "whitelist" then ["0"] else [])
      && Get(after, s, "dhcpv4") == (if p.enabled then ["server"] else Get(c, s, "dhcpv4"))
  {
    hide ApplyDhcp, DhcpWrites, PoolPatch, UciName, MainDhcp, Decimal;
    var w := PoolWrite(p, st, net);
    PoolAmong(st, net, p);
    PoolPatchHolds(p, st, net);
    forall o | o != "maindhcp" && o in w.patch
      ensures w.sec in ApplyDhcp(c, st, net, svc, drop) && ApplyDhcp(c, st, net, svc, drop)[w.sec].typ == w.typ
      ensures Get(ApplyDhcp(c, st, net, svc, drop), w.sec, o) == w.patch[o]
    {
      NoDaemonOption(w.sec, o);
      WantedHolds(c, st, net, svc, drop, w, o);
    }
    if !p.enabled {
      NoDaemonOption(w.sec, "dhcpv4");
      WantedKeeps(c, st, net, svc, drop, w, "dhcpv4");
    }
  }

  /** The tool runs an enabled pool on the interface. */
  predicate RunsPoolOn(st: Dhcp, iface: string) {
    exists q :: q in st.servers && q.enabled && q.managed && q.iface == iface && iface != ""
  }

  lemma BusyIs(st: Dhcp, iface: string)
    ensures iface in Busy(st.servers) <==> RunsPoolOn(st, iface)
  {
  }

  /** A disabled pool is turned off by `ignore`, or where another runs on its interface
      by having no range. */
  lemma PoolSwitchedOff(c: Config, st: Dhcp, net: Config, svc: Service, drop: set<string>, p: DhcpServer)
    requires Consistent(DhcpWrites(st, net)) && p in st.servers && p.managed
    ensures var after, s := ApplyDhcp(c, st, net, svc, drop), UciName(p.id);
      Get(after, s, "ignore") == (if p.enabled || RunsPoolOn(st, p.iface) then [] else ["1"])
      && (Get(after, s, "start") == [] <==> !p.enabled && RunsPoolOn(st, p.iface))
      && (Get(after, s, "limit") == [] <==> !p.enabled && RunsPoolOn(st, p.iface))
  {
    hide ApplyDhcp, DhcpWrites, UciName, Busy, RunsPoolOn, PoolAt, Numeral;
    BusyIs(st, p.iface);
    OwnPool(c, st, net, svc, drop, p);
  }

  /** A pool that somebody else configured: one that the user has just dropped loses its
      range and is ignored, unless the tool runs a pool there; where it does, the others
      lose range and `ignore`; and nothing else is changed. */
  lemma StockPoolAfter(c: Config, st: Dhcp, net: Config, svc: Service, drop: set<string>, s: string, o: Opt)
    requires s in c && c[s].typ == "dhcp" && s !in Names(DhcpWrites(st, net)) && !CarriesMarker(c[s], MARKER) && !MainDhcp(s, o)
    ensures var after, runs := ApplyDhcp(c, st, net, svc, drop), RunsPoolOn(st, First(Get(c, s, "interface")));
      s in after && after[s].typ == "dhcp" && Get(after, s, o) ==
        if (o == "start" || o == "limit") && (s in drop || runs) then []
        else if o == "ignore" && s in drop && !runs then ["1"]
        else if o == "ignore" && s !in drop && runs then []
        else Get(c, s, o)
  {
    hide ApplyDhcp, DhcpWrites, Busy, RunsPoolOn;
    BusyIs(st, First(Get(c, s, "interface")));
    ApplyOther(c, st, net, svc, drop, s, o);
  }

  /** A pool of somebody else's that the user removes from the list is retired by that
      very save, while its section stays. */
  lemma RemovedPoolRetired(w: Machine.World, servers: seq<DhcpServer>, env: Machine.Env, p: DhcpServer)
    requires p in w.st.servers && !p.managed && forall q :: q in servers ==> q.id != p.id
    requires var s, st := UciName(p.id), w.st.(servers := servers);
      s in w.dhcp && w.dhcp[s].typ == "dhcp" && s !in Names(DhcpWrites(st, w.net)) && !CarriesMarker(w.dhcp[s], MARKER)
    ensures var after, s := Machine.Step(w, Machine.SaveServers(servers), env).dhcp, UciName(p.id);
      s in after && Get(after, s, "start") == [] && Get(after, s, "limit") == []
      && (!RunsPoolOn(w.st.(servers := servers), First(Get(w.dhcp, s, "interface"))) ==> Get(after, s, "ignore") == ["1"])
  {
    hide ApplyDhcp, DhcpWrites, UciName, RunsPoolOn, ApplyNet;
    var s, st, op := UciName(p.id), w.st.(servers := servers), Machine.SaveServers(servers);
    assert s in Machine.DropSet(w, op);
    NoDaemonOption(s, "start");
    NoDaemonOption(s, "limit");
    NoDaemonOption(s, "ignore");
    StockPoolAfter(w.dhcp, st, w.net, env.svc, Machine.DropSet(w, op), s, "start");
    StockPoolAfter(w.dhcp, st, w.net, env.svc, Machine.DropSet(w, op), s, "limit");
    StockPoolAfter(w.dhcp, st, w.net, env.svc, Machine.DropSet(w, op), s, "ignore");
  }

  // ---- reservations ----

  predicate ServingOn(s: DhcpServer, iface: string) {
    s.enabled && s.managed && s.iface == iface
  }

  /** The pool that a reservation goes by: the first one on its interface that is enabled
      and managed, or the first such pool anywhere. */
  ghost predicate PoolFor(servers: seq<DhcpServer>, iface: string, p: DhcpServer) {
    exists i :: 0 <= i < |servers| && servers[i] == p && p.enabled && p.managed &&
      if iface != "" && exists s :: s in servers && ServingOn(s, iface) then
        p.iface == iface && forall j :: 0 <= j < i ==> !ServingOn(servers[j], iface)
      else
        forall j :: 0 <= j < i ==> !(servers[j].enabled && servers[j].managed)
  }

  predicate Serves(s: DhcpServer, iface: string, any: bool) {
    Serving(s) && (any || s.iface == iface)
  }

  /** The first server of that kind is the i-th. */
  predicate IsFirst(servers: seq<DhcpServer>, iface: string, any: bool, i: int) {
    0 <= i < |servers| && Serves(servers[i], iface, any) && forall j :: 0 <= j < i ==> !Serves(servers[j], iface, any)
  }

  lemma FirstCons(servers: seq<DhcpServer>, iface: string, any: bool, i: int)
    requires servers != [] && !Serves(servers[0], iface, any) && IsFirst(servers[1..], iface, any, i)
    ensures IsFirst(servers, iface, any, i + 1) && servers[i + 1] == servers[1..][i]
  {
    forall j | 0 <= j < i + 1 ensures !Serves(servers[j], iface, any) {
      assert j > 0 ==> servers[j] == servers[1..][j - 1];
    }
  }

  lemma {:induction false} FirstServingIs(servers: seq<DhcpServer>, iface: string, any: bool)
    ensures FirstServing(servers, iface, any).None? <==> forall s :: s in servers ==> !Serves(s, iface, any)
    ensures FirstServing(servers, iface, any).Some? ==>
      exists i :: IsFirst(servers, iface, any, i) && servers[i] == FirstServing(servers, iface, any).value
  {
    if servers != [] {
      if Serves(servers[0], iface, any) {
        assert IsFirst(servers, iface, any, 0);
      } else {
        hide Serves, IsFirst;
        FirstServingIs(servers[1..], iface, any);
        assert servers == [servers[0]] + servers[1..];
        NotFirst(servers, iface, any);
        if FirstServing(servers[1..], iface, any).Some? {
          var i :| IsFirst(servers[1..], iface, any, i) && servers[1..][i] == FirstServing(servers[1..], iface, any).value;
          FirstCons(servers, iface, any, i);
        }
      }
    }
  }

  lemma NotFirst(servers: seq<DhcpServer>, iface: string, any: bool)
    requires servers != [] && !Serves(servers[0], iface, any)
    ensures FirstServing(servers, iface, any) == FirstServing(servers[1..], iface, any)
  {
  }

  lemma FirstAt(servers: seq<DhcpServer>, iface: string, any: bool, i: int)
    requires IsFirst(servers, iface, any, i)
    ensures FirstServing(servers, iface, any) == Some(servers[i])
  {
    if i > 0 {
      FirstAt(servers[1..], iface, any, i - 1);
    }
  }

  lemma PoolForIs(servers: seq<DhcpServer>, iface: string, p: DhcpServer)
    ensures PoolFor(servers, iface, p) <==> PoolForInterface(servers, iface) == Some(p)
  {
    hide FirstServing;
    FirstServingIs(servers, iface, false);
    FirstServingIs(servers, iface, true);
    if PoolFor(servers, iface, p) {
      PoolForFound(servers, iface, p);
    }
  }

  lemma PoolForFound(servers: seq<DhcpServer>, iface: string, p: DhcpServer)
    requires PoolFor(servers, iface, p)
    ensures PoolForInterface(servers, iface) == Some(p)
  {
    hide FirstServing;
    FirstServingIs(servers, iface, false);
    var some := iface != "" && exists s :: s in servers && ServingOn(s, iface);
    var i :| 0 <= i < |servers| && servers[i] == p && p.enabled && p.managed &&
      if some then p.iface == iface && forall j :: 0 <= j < i ==> !ServingOn(servers[j], iface)
      else forall j :: 0 <= j < i ==> !(servers[j].enabled && servers[j].managed);
    FirstAt(servers, iface, !some, i);
  }

  /** The options that a reserved client is to be told of its own. */
  ghost predicate TagTells(l: StaticLease, st: Dhcp, net: Config, code: int, v: string) {
    || (code == 3 && TrimSpace(l.gateway) != "" && v == l.gateway)
    || (code == 6 && DnsList(v, l.dnsPrimary, l.dnsSecondary))
    || ((code == 121 || code == 249) && st.pushMode == "tagged" && l.routePush
        && exists p :: PoolFor(st.servers, l.iface, p) && Classless(v, p.gateway, IfaceIp(net, p.iface), st.routes))
  }

  lemma TagOptionsTell(l: StaticLease, st: Dhcp, net: Config, code: int, v: string)
    ensures Announces(TagOptions(l, st, net), code, v) <==> TagTells(l, st, net, code, v)
    ensures WellFormed(TagOptions(l, st, net))
  {
    hide Decimal, JoinDns, DnsList, Classless, ClasslessValue, IfaceIp, Pushable, GatewayAndDns, ClasslessPair, Announces, WellFormed,
      PoolFor, PoolForInterface, TrimSpace;
    var gd := GatewayAndDns(l.gateway, JoinDns(l.dnsPrimary, l.dnsSecondary), TrimSpace(l.gateway) != "");
    GatewayAnnounced(l.gateway, JoinDns(l.dnsPrimary, l.dnsSecondary), TrimSpace(l.gateway) != "", code, v);
    DnsListIs(v, l.dnsPrimary, l.dnsSecondary);
    forall p ensures PoolFor(st.servers, l.iface, p) <==> PoolForInterface(st.servers, l.iface) == Some(p) {
      PoolForIs(st.servers, l.iface, p);
    }
    var pool := PoolForInterface(st.servers, l.iface);
    if st.pushMode == PUSH_TAGGED && l.routePush && pool.Some? {
      var w := ClasslessValue(pool.value.gateway, IfaceIp(net, pool.value.iface), Pushable(st.routes));
      PairAnnounced(w, code, v);
      ClasslessIs(v, pool.value.gateway, IfaceIp(net, pool.value.iface), st.routes);
      AnnouncesEither(gd, ClasslessPair(w), code, v);
    }
  }

  /** A label that a DHCP server takes: letters and digits, inside also dashes and
      underscores, up to 63 of them. */
  predicate IsLabel(n: string) {
    && 1 <= |n| <= 63 && IsAlnum(n[0]) && IsAlnum(n[|n| - 1])
    && forall c :: c in n ==> IsAlnum(c) || c == '-' || c == '_'
  }

  predicate IsAlnum(c: char) {
    'A' <= c <= 'Z' || 'a' <= c <= 'z' || '0' <= c <= '9'
  }

  lemma LabelIs(name: string)
    ensures DnsSafeHostname(name) == if IsLabel(TrimSpace(name)) then TrimSpace(name) else ""
  {
    hide TrimSpace;
    var n := TrimSpace(name);
    if IsLabel(n) {
      forall i | 0 <= i < |n| ensures LabelChar(n[i], i != 0 && i != |n| - 1) {
        assert n[i] in n;
      }
    }
    if DnsSafeHostname(name) != "" {
      forall c | c in n ensures IsAlnum(c) || c == '-' || c == '_' {
        var i :| 0 <= i < |n| && n[i] == c;
      }
    }
  }

  lemma SomethingTold(os: seq<string>)
    requires WellFormed(os) && os != []
    ensures exists code, v :: Announces(os, code, v)
  {
    hide Decimal;
    assert os[0] in os;
    var code, v :| os[0] == Decimal(code) + "," + v;
    assert Announces(os, code, v);
  }

  /** A reservation's name is written if it is a label; it has a tag exactly if there is
      something to tell the client, and the tag tells exactly that: the gateway under 3, the
      DNS servers under 6, and the routes under 121 and 249. */
  lemma ReservationTold(c: Config, st: Dhcp, net: Config, svc: Service, drop: set<string>, l: StaticLease)
    requires Consistent(DhcpWrites(st, net)) && l in st.statics && l.enabled && l.managed
    ensures var after, s := ApplyDhcp(c, st, net, svc, drop), UciName(l.id);
      Get(after, s, "name") == if IsLabel(TrimSpace(l.hostname)) then [TrimSpace(l.hostname)] else []
    ensures var after, s := ApplyDhcp(c, st, net, svc, drop), UciName(l.id);
      Get(after, s, "tag") == if exists code, v :: TagTells(l, st, net, code, v) then [s + "_t"] else []
    ensures (exists code, v :: TagTells(l, st, net, code, v)) ==>
      var after, t := ApplyDhcp(c, st, net, svc, drop), UciName(l.id) + "_t";
      t in after && after[t].typ == "tag" && WellFormed(Get(after, t, "dhcp_option"))
      && forall code, v :: Announces(Get(after, t, "dhcp_option"), code, v) <==> TagTells(l, st, net, code, v)
  {
    hide ApplyDhcp, DhcpWrites, UciName, MainDhcp, Announces, WellFormed, TagTells, TagOptions, LeaseWrites, HostPatch, DnsSafeHostname, IsLabel, TrimSpace;
    var os := TagOptions(l, st, net);
    forall code, v ensures Announces(os, code, v) <==> TagTells(l, st, net, code, v) {
      TagOptionsTell(l, st, net, code, v);
    }
    TagOptionsTell(l, st, net, 0, "");
    if os == [] {
      forall code, v ensures !TagTells(l, st, net, code, v) {
        NothingAnnounced(code, v);
      }
    } else {
      SomethingTold(os);
    }
    ReservationInstalled(c, st, net, svc, drop, l);
    HostNamed(c, st, net, svc, drop, l);
  }

  lemma HostNamed(c: Config, st: Dhcp, net: Config, svc: Service, drop: set<string>, l: StaticLease)
    requires Consistent(DhcpWrites(st, net)) && l in st.statics && l.enabled && l.managed
    ensures Get(ApplyDhcp(c, st, net, svc, drop), UciName(l.id), "name") ==
      if IsLabel(TrimSpace(l.hostname)) then [TrimSpace(l.hostname)] else []
  {
    hide ApplyDhcp, DhcpWrites, UciName, MainDhcp, TagOptions, LeaseWrites, DnsSafeHostname, TrimSpace;
    var w := HostWrite(l, st, net);
    LabelIs(l.hostname);
    HostAmongWrites(l, st, net);
    LeaseWanted(st, net, l, w);
    NoDaemonOption(w.sec, "name");
    assert "name" in w.patch && w.patch["name"] == One(DnsSafeHostname(l.hostname)) by { HostNameReads(l, st, net); }
    WantedHolds(c, st, net, svc, drop, w, "name");
  }

  lemma HostNameReads(l: StaticLease, st: Dhcp, net: Config)
    ensures var w := HostWrite(l, st, net); "name" in w.patch && w.patch["name"] == One(DnsSafeHostname(l.hostname))
  {
    hide DnsSafeHostname, TagOptions, UciName;
    assert "name" != "tag";
  }
}
