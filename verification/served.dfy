/** What the DHCP projection achieves: which address ranges end up being served on
    an interface, and that projecting the same state again changes nothing. */
module Served {
  import opened Text
  import opened Uci
  import opened Projection
  import opened Sidecar
  import opened NetUtil
  import opened Numbers
  import opened Addresses
  import opened DhcpSpec

  // ---- the wanted sections ----

  ghost predicate Stamped(w: Write) {
    MANAGED_BY in w.patch && w.patch[MANAGED_BY] == [MARKER]
  }

  ghost predicate IsPool(w: Write, st: Dhcp, net: Config) {
    exists s :: s in st.servers && s.managed && w == PoolWrite(s, st, net)
  }

  /** Every wanted section carries the marker and does not choose the DHCP daemon, and
      the pools among them come from managed servers. */
  ghost predicate Proper(w: Write, st: Dhcp, net: Config) {
    Stamped(w) && IsName(w.sec) && "maindhcp" !in w.patch && (w.typ == "dhcp" ==> IsPool(w, st, net))
  }

  ghost predicate AllProper(ws: seq<Write>, st: Dhcp, net: Config) {
    forall w :: w in ws ==> Proper(w, st, net)
  }

  lemma HostsAreProper(id: string, mac: string, ip: string, st: Dhcp, net: Config)
    ensures Proper(Write(UciName(id), "host", HostPatch(mac, ip)), st, net)
  {
    UciNameIsName(id);
  }

  lemma PoolLeavesDaemon(s: DhcpServer, st: Dhcp, net: Config)
    ensures "maindhcp" !in PoolPatch(s, st, net)
  {
    hide PoolAt, PoolOptions, Busy;
  }

  lemma PoolIsProper(s: DhcpServer, st: Dhcp, net: Config)
    requires s in st.servers && s.managed
    ensures Proper(PoolWrite(s, st, net), st, net)
  {
    hide PoolRange, PoolPatch;
    PoolRangeReads(s, st, net);
    PoolPatchKeepsRange(s, st, net, MANAGED_BY);
    PoolLeavesDaemon(s, st, net);
    UciNameIsName(s.id);
  }

  lemma {:induction false} ExcludedAreProper(name: string, ips: seq<string>, st: Dhcp, net: Config)
    ensures AllProper(ExcludedWrites(name, ips), st, net)
  {
    hide PlaceholderMac, Proper;
    if ips != [] {
      var ip := ips[|ips| - 1];
      ExcludedAreProper(name, ips[..|ips| - 1], st, net);
      HostsAreProper(name + "_x_" + ip, PlaceholderMac(ip), ip, st, net);
    }
  }

  lemma {:induction false} ServersAreProper(servers: seq<DhcpServer>, st: Dhcp, net: Config)
    requires forall s :: s in servers ==> s in st.servers
    ensures AllProper(AllServerWrites(servers, st, net), st, net)
    ensures forall s :: s in servers && s.managed ==> PoolWrite(s, st, net) in AllServerWrites(servers, st, net)
  {
    hide PoolWrite, Proper, Expanded, ExcludedWrites;
    if servers != [] {
      var init, s := servers[..|servers| - 1], servers[|servers| - 1];
      assert servers == init + [s];
      ServersAreProper(init, st, net);
      if s.managed {
        PoolIsProper(s, st, net);
        ExcludedAreProper(UciName(s.id), Expanded(s.exclude), st, net);
      }
    }
  }

  lemma TagNameIsName(id: string)
    ensures IsName(TagName(UciName(id)))
  {
    UciNameIsName(id);
    var n := UciName(id);
    assert forall c :: c in "_t" ==> IsWordChar(c);
    assert TagName(n)[0] == n[0];
  }

  lemma LeaseIsProper(l: StaticLease, st: Dhcp, net: Config)
    ensures AllProper(LeaseWrites(l, st, net), st, net)
  {
    hide TagOptions, DnsSafeHostname;
    UciNameIsName(l.id);
    TagNameIsName(l.id);
  }

  lemma {:induction false} LeasesAreProper(ls: seq<StaticLease>, st: Dhcp, net: Config)
    ensures AllProper(AllLeaseWrites(ls, st, net), st, net)
  {
    hide LeaseWrites, Proper;
    if ls != [] {
      LeasesAreProper(ls[..|ls| - 1], st, net);
      LeaseIsProper(ls[|ls| - 1], st, net);
    }
  }

  lemma {:induction false} DeniedAreProper(es: seq<AclEntry>, st: Dhcp, net: Config)
    ensures AllProper(DenyWrites(es), st, net)
  {
    hide Proper;
    if es != [] {
      DeniedAreProper(es[..|es| - 1], st, net);
      HostsAreProper(es[|es| - 1].id, es[|es| - 1].mac, "ignore", st, net);
    }
  }

  lemma {:induction false} AllowedAreProper(es: seq<AclEntry>, pool: Alloc, st: Dhcp, net: Config)
    ensures AllProper(AllowWrites(es, pool), st, net)
    decreases |es|
  {
    hide Proper, Render, Scan;
    if es != [] {
      if !Listed(es[0]) {
        AllowedAreProper(es[1..], pool, st, net);
      } else {
        var (ip, after) := pool.Next();
        if ip.Some? {
          HostsAreProper(es[0].id, es[0].mac, Render(ip.value), st, net);
          AllowedAreProper(es[1..], after, st, net);
        }
      }
    }
  }

  lemma WritesAreProper(st: Dhcp, net: Config)
    ensures AllProper(DhcpWrites(st, net), st, net)
    ensures AllStamped(DhcpWrites(st, net), MARKER)
    ensures forall s :: s in st.servers && s.managed ==> PoolWrite(s, st, net) in DhcpWrites(st, net)
  {
    hide PoolWrite, AllServerWrites, AllLeaseWrites, AllowWrites, DenyWrites, InitialAlloc, UsedIps;
    ServersAreProper(st.servers, st, net);
    LeasesAreProper(st.statics, st, net);
    if st.acl.mode == ACL_WHITELIST {
      AllowedAreProper(st.acl.entries, InitialAlloc(st.servers, UsedIps(st)), st, net);
    } else {
      DeniedAreProper(st.acl.entries, st, net);
    }
  }

  // ---- the projected configuration, option by option ----

  lemma RetireAt(c: Config, before: Config, ws: seq<Write>, busy: set<string>, drop: set<string>, s: string, o: Opt)
    ensures RetireStock(c, before, ws, busy, drop).Keys == c.Keys
    ensures s in c ==> RetireStock(c, before, ws, busy, drop)[s].typ == c[s].typ
    ensures Get(RetireStock(c, before, ws, busy, drop), s, o) ==
      if s in c && Stock(before, ws, s) then
        Wanted(c[s].opts, StockPatch(First(Get(before, s, "interface")), busy, s in drop), o)
      else Get(c, s, o)
  {
    hide StockPatch, Overlay;
    if s in c && Stock(before, ws, s) {
      OverlayGet(c[s].opts, StockPatch(First(Get(before, s, "interface")), busy, s in drop), o);
    }
  }

  /** The one option that is set outside the tool's own sections and the pools. */
  predicate MainDhcp(s: string, o: Opt) {
    s == "odhcpd" && o == "maindhcp"
  }

  lemma SelectAt(c: Config, before: Config, svc: Service, any: bool, s: string, o: Opt)
    ensures SelectServer(c, before, svc, any).Keys == c.Keys
    ensures s in c ==> SelectServer(c, before, svc, any)[s].typ == c[s].typ
    ensures !MainDhcp(s, o) ==> Get(SelectServer(c, before, svc, any), s, o) == Get(c, s, o)
    ensures MainDhcp(s, o) ==>
      Get(SelectServer(c, before, svc, any), s, o) ==
      if s in c && s in before && svc.Dnsmasq? then ["0"]
      else if s in c && s in before && svc.Odhcpd? && any then ["1"]
      else Get(c, s, o)
  {
  }

  /** A wanted section after `apply`. */
  lemma ApplyWanted(c: Config, st: Dhcp, net: Config, svc: Service, drop: set<string>, s: string, o: Opt)
    requires s in Names(DhcpWrites(st, net)) && !MainDhcp(s, o)
    ensures s in ApplyDhcp(c, st, net, svc, drop)
    ensures ApplyDhcp(c, st, net, svc, drop)[s].typ == FinalType(DhcpWrites(st, net), s)
    ensures Get(ApplyDhcp(c, st, net, svc, drop), s, o) == Wanted(OldOpts(c, s), FinalPatch(DhcpWrites(st, net), s), o)
  {
    hide DhcpWrites, FinalPatch, FinalType, Project, RetireStock, SelectServer, Overlay, Busy;
    var ws := DhcpWrites(st, net);
    var c1 := Project(c, ws, MARKER);
    ProjectAt(c, ws, MARKER, s);
    OverlayGet(OldOpts(c, s), FinalPatch(ws, s), o);
    var c2 := RetireStock(c1, c, ws, Busy(st.servers), drop);
    RetireAt(c1, c, ws, Busy(st.servers), drop, s, o);
    SelectAt(c2, c, svc, AnyServing(st.servers), s, o);
  }

  /** A section that `apply` does not want. */
  lemma ApplyOther(c: Config, st: Dhcp, net: Config, svc: Service, drop: set<string>, s: string, o: Opt)
    requires s !in Names(DhcpWrites(st, net)) && !MainDhcp(s, o)
    ensures s in ApplyDhcp(c, st, net, svc, drop) <==> s in c && !CarriesMarker(c[s], MARKER)
    ensures s in ApplyDhcp(c, st, net, svc, drop) ==> ApplyDhcp(c, st, net, svc, drop)[s].typ == c[s].typ
    ensures s in ApplyDhcp(c, st, net, svc, drop) && c[s].typ == "dhcp" ==>
      Get(ApplyDhcp(c, st, net, svc, drop), s, o) ==
      Wanted(c[s].opts, StockPatch(First(Get(c, s, "interface")), Busy(st.servers), s in drop), o)
    ensures s in ApplyDhcp(c, st, net, svc, drop) && c[s].typ != "dhcp" ==>
      Get(ApplyDhcp(c, st, net, svc, drop), s, o) == Get(c, s, o)
  {
    hide DhcpWrites, FinalPatch, FinalType, Project, RetireStock, SelectServer, Overlay, Busy, StockPatch;
    var ws := DhcpWrites(st, net);
    var c1 := Project(c, ws, MARKER);
    ProjectAt(c, ws, MARKER, s);
    var c2 := RetireStock(c1, c, ws, Busy(st.servers), drop);
    RetireAt(c1, c, ws, Busy(st.servers), drop, s, o);
    SelectAt(c2, c, svc, AnyServing(st.servers), s, o);
  }

  // ---- served ranges ----

  /** A DHCP section bound to interface i. */
  predicate OnIface(c: Config, s: string, i: string) {
    s in c && c[s].typ == "dhcp" && First(Get(c, s, "interface")) == i
  }

  predicate HasRange(c: Config, s: string) {
    Get(c, s, "start") != [] || Get(c, s, "limit") != []
  }

  predicate Ignored(c: Config, s: string) {
    Get(c, s, "ignore") != []
  }

  ghost predicate ServesOn(st: Dhcp, i: string, s: string) {
    exists p :: p in st.servers && Serving(p) && p.iface == i && s == UciName(p.id)
  }

  lemma PoolRangeReads(p: DhcpServer, st: Dhcp, net: Config)
    ensures var b, ranged := PoolRange(p, st, net), p.enabled || p.iface !in Busy(st.servers);
      "interface" in b && b["interface"] == One(p.iface) &&
      "start" in b && b["start"] == (if ranged then [Numeral(PoolAt(p, net).start)] else []) &&
      "limit" in b && b["limit"] == (if ranged then [Numeral(PoolAt(p, net).limit)] else [])
    ensures var b := PoolRange(p, st, net);
      "ignore" in b && b["ignore"] == if p.enabled || p.iface in Busy(st.servers) then [] else ["1"]
    ensures MANAGED_BY in PoolRange(p, st, net) && PoolRange(p, st, net)[MANAGED_BY] == [MARKER]
  {
    hide PoolAt, Busy, LeaseTime, Numeral;
  }

  lemma PoolPatchKeepsRange(p: DhcpServer, st: Dhcp, net: Config, o: Opt)
    requires o in PoolRange(p, st, net)
    requires o != "dhcpv4" && o != "dhcp_option" && o != "dynamicdhcp"
    ensures o in PoolPatch(p, st, net) && PoolPatch(p, st, net)[o] == PoolRange(p, st, net)[o]
  {
    hide PoolRange, PoolOptions;
  }

  lemma PoolPatchReads(p: DhcpServer, st: Dhcp, net: Config, opts: Opts)
    ensures Wanted(opts, PoolPatch(p, st, net), "interface") == One(p.iface)
    ensures Wanted(opts, PoolPatch(p, st, net), "start") ==
      if p.enabled || p.iface !in Busy(st.servers) then [Numeral(PoolAt(p, net).start)] else []
    ensures Wanted(opts, PoolPatch(p, st, net), "limit") ==
      if p.enabled || p.iface !in Busy(st.servers) then [Numeral(PoolAt(p, net).limit)] else []
    ensures Wanted(opts, PoolPatch(p, st, net), "ignore") ==
      if p.enabled || p.iface in Busy(st.servers) then [] else ["1"]
  {
    hide PoolRange, PoolPatch, PoolAt, Busy, Numeral;
    PoolRangeReads(p, st, net);
    PoolPatchKeepsRange(p, st, net, "interface");
    PoolPatchKeepsRange(p, st, net, "start");
    PoolPatchKeepsRange(p, st, net, "limit");
    PoolPatchKeepsRange(p, st, net, "ignore");
  }

  lemma StockPatchReads(iface: string, busy: set<string>, dropped: bool, opts: Opts)
    ensures Wanted(opts, StockPatch(iface, busy, dropped), "interface") == OptGet(opts, "interface")
    ensures dropped || iface in busy ==> Wanted(opts, StockPatch(iface, busy, dropped), "start") == []
    ensures dropped || iface in busy ==> Wanted(opts, StockPatch(iface, busy, dropped), "limit") == []
    ensures iface in busy ==>
      Wanted(opts, StockPatch(iface, busy, dropped), "ignore") == if dropped then OptGet(opts, "ignore") else []
  {
  }

  /** What is left of a pool section the tool wrote. */
  lemma OwnPool(c: Config, st: Dhcp, net: Config, svc: Service, drop: set<string>, p: DhcpServer)
    requires Consistent(DhcpWrites(st, net)) && p in st.servers && p.managed
    ensures var after, s, shared := ApplyDhcp(c, st, net, svc, drop), UciName(p.id), p.iface in Busy(st.servers);
      s in after && after[s].typ == "dhcp" && First(Get(after, s, "interface")) == p.iface &&
      Get(after, s, "start") == (if p.enabled || !shared then [Numeral(PoolAt(p, net).start)] else []) &&
      Get(after, s, "limit") == (if p.enabled || !shared then [Numeral(PoolAt(p, net).limit)] else []) &&
      Get(after, s, "ignore") == (if p.enabled || shared then [] else ["1"])
  {
    hide DhcpWrites, PoolPatch, ApplyDhcp, Busy, PoolAt, Wanted;
    var ws, w := DhcpWrites(st, net), PoolWrite(p, st, net);
    WritesAreProper(st, net);
    ConsistentFinal(ws, w);
    ApplyWanted(c, st, net, svc, drop, w.sec, "interface");
    ApplyWanted(c, st, net, svc, drop, w.sec, "start");
    ApplyWanted(c, st, net, svc, drop, w.sec, "limit");
    ApplyWanted(c, st, net, svc, drop, w.sec, "ignore");
    PoolPatchReads(p, st, net, OldOpts(c, w.sec));
  }

  /** What is left of somebody else's section on an interface the tool serves. */
  lemma OtherPool(c: Config, st: Dhcp, net: Config, svc: Service, drop: set<string>, s: string, i: string)
    requires s !in Names(DhcpWrites(st, net)) && i in Busy(st.servers)
    requires OnIface(ApplyDhcp(c, st, net, svc, drop), s, i)
    ensures Stock(c, DhcpWrites(st, net), s) && OnIface(c, s, i)
    ensures !HasRange(ApplyDhcp(c, st, net, svc, drop), s)
    ensures Get(ApplyDhcp(c, st, net, svc, drop), s, "ignore") == if s in drop then Get(c, s, "ignore") else []
  {
    hide DhcpWrites, ApplyDhcp, Busy, StockPatch, Wanted;
    ApplyOther(c, st, net, svc, drop, s, "interface");
    ApplyOther(c, st, net, svc, drop, s, "start");
    ApplyOther(c, st, net, svc, drop, s, "limit");
    ApplyOther(c, st, net, svc, drop, s, "ignore");
    StockPatchReads(First(Get(c, s, "interface")), Busy(st.servers), s in drop, c[s].opts);
  }

  /** A wanted DHCP section is a managed server's pool. */
  lemma WantedPool(st: Dhcp, net: Config, s: string) returns (p: DhcpServer)
    requires Consistent(DhcpWrites(st, net)) && s in Names(DhcpWrites(st, net))
    requires FinalType(DhcpWrites(st, net), s) == "dhcp"
    ensures p in st.servers && p.managed && UciName(p.id) == s
  {
    hide DhcpWrites, PoolPatch, ApplyDhcp;
    var ws := DhcpWrites(st, net);
    WritesAreProper(st, net);
    var w :| w in ws && w.sec == s;
    ConsistentFinal(ws, w);
    assert Proper(w, st, net);
    p :| p in st.servers && p.managed && w == PoolWrite(p, st, net);
  }

  /** On an interface where the tool runs a pool, the sections with an address range
      are exactly its enabled pools there, whatever was dropped. */
  lemma ServedRangesAreThePools(c: Config, st: Dhcp, net: Config, svc: Service, drop: set<string>, i: string, s: string)
    requires Consistent(DhcpWrites(st, net)) && i in Busy(st.servers)
    ensures OnIface(ApplyDhcp(c, st, net, svc, drop), s, i) && HasRange(ApplyDhcp(c, st, net, svc, drop), s)
      <==> ServesOn(st, i, s)
  {
    hide DhcpWrites, ApplyDhcp, Busy, PoolAt;
    if ServesOn(st, i, s) {
      var p :| p in st.servers && Serving(p) && p.iface == i && s == UciName(p.id);
      OwnPool(c, st, net, svc, drop, p);
    }
    if OnIface(ApplyDhcp(c, st, net, svc, drop), s, i) && HasRange(ApplyDhcp(c, st, net, svc, drop), s) {
      if s in Names(DhcpWrites(st, net)) {
        ApplyWanted(c, st, net, svc, drop, s, "start");
        var p := WantedPool(st, net, s);
        OwnPool(c, st, net, svc, drop, p);
      } else {
        OtherPool(c, st, net, svc, drop, s, i);
      }
    }
  }

  /** `ignore` turns off a whole interface. On an interface where the tool runs a
      pool a section keeps it exactly when it is a stock section that the user has
      just deleted and that had it. */
  lemma IgnoreSurvivesOnlyOnDropped(c: Config, st: Dhcp, net: Config, svc: Service, drop: set<string>, i: string, s: string)
    requires Consistent(DhcpWrites(st, net)) && i in Busy(st.servers)
    ensures OnIface(ApplyDhcp(c, st, net, svc, drop), s, i) && Ignored(ApplyDhcp(c, st, net, svc, drop), s)
      <==> Stock(c, DhcpWrites(st, net), s) && s in drop && OnIface(c, s, i) && Ignored(c, s)
  {
    hide DhcpWrites, ApplyDhcp, Busy, PoolAt, StockPatch, Wanted;
    if s in Names(DhcpWrites(st, net)) {
      ApplyWanted(c, st, net, svc, drop, s, "ignore");
      if OnIface(ApplyDhcp(c, st, net, svc, drop), s, i) {
        var p := WantedPool(st, net, s);
        OwnPool(c, st, net, svc, drop, p);
      }
    } else {
      ApplyOther(c, st, net, svc, drop, s, "interface");
      if OnIface(ApplyDhcp(c, st, net, svc, drop), s, i) {
        OtherPool(c, st, net, svc, drop, s, i);
      } else if Stock(c, DhcpWrites(st, net), s) {
        StockPatchReads(First(Get(c, s, "interface")), Busy(st.servers), s in drop, c[s].opts);
      }
    }
  }

  /** With nothing dropped no section on such an interface is ignored. */
  lemma NothingIgnored(c: Config, st: Dhcp, net: Config, svc: Service, i: string, s: string)
    requires Consistent(DhcpWrites(st, net)) && i in Busy(st.servers)
    ensures OnIface(ApplyDhcp(c, st, net, svc, {}), s, i) ==> !Ignored(ApplyDhcp(c, st, net, svc, {}), s)
  {
    hide ApplyDhcp, DhcpWrites;
    IgnoreSurvivesOnlyOnDropped(c, st, net, svc, {}, i, s);
  }

  lemma PoolAtFits(p: DhcpServer, net: Config)
    ensures PoolAt(p, net).start < TWO32 && PoolAt(p, net).limit <= TWO32
  {
    hide ParseIp, NetworkBase, BaseOf, SameSubnet, IfaceIp, IfaceMask;
  }

  /** Outside the subnet the offset falls back to the last octet, which is right
      exactly when the network base is the range's own /24. */
  lemma FallbackDecodes(p: DhcpServer, net: Config)
    requires var ip, mask := IfaceIp(net, p.iface), IfaceMask(net, p.iface);
      ip != "" && mask != "" && NetworkBase(ip, mask).Some? && StartLimit(ip, mask, p.ipStart, p.ipEnd).None?
    requires RangeCount(p.ipStart, p.ipEnd).Some?
    ensures var ip, mask, at := IfaceIp(net, p.iface), IfaceMask(net, p.iface), PoolAt(p, net);
      StartLimitToRange(ip, mask, at.start, at.limit) == (Render(ParseIp(p.ipStart).value), Render(ParseIp(p.ipEnd).value))
      <==> BaseOf(ip, mask) == ParseIp(p.ipStart).value - ParseIp(p.ipStart).value % 256
  {
    hide IfaceIp, IfaceMask, ParseIp, BaseOf, NetworkBase, StartLimit, Render;
    var ip, mask := IfaceIp(net, p.iface), IfaceMask(net, p.iface);
    var s, e := ParseIp(p.ipStart).value, ParseIp(p.ipEnd).value;
    var su := ToU32(BaseOf(ip, mask) + ToU32(s % 256));
    OffsetFromBase(BaseOf(ip, mask), s);
    if su == s {
      WrapRange(s - s % 256, s, e);
    } else if Render(su) == Render(s) {
      RenderInjective(su, s);
    }
  }

  lemma OffsetFromBase(base: u32, s: u32)
    ensures ToU32(base + ToU32(s % 256)) == s <==> base == s - s % 256
  {
  }

  /** Each enabled pool whose range lies in its interface's subnet is served with
      exactly that range. */
  lemma PoolDecodes(c: Config, st: Dhcp, net: Config, svc: Service, drop: set<string>, p: DhcpServer)
    requires Consistent(DhcpWrites(st, net)) && p in st.servers && Serving(p)
    requires var ip, mask := IfaceIp(net, p.iface), IfaceMask(net, p.iface);
      ip != "" && mask != "" && StartLimit(ip, mask, p.ipStart, p.ipEnd).Some?
    ensures var after, s := ApplyDhcp(c, st, net, svc, drop), UciName(p.id);
      StartLimitToRange(IfaceIp(net, p.iface), IfaceMask(net, p.iface),
                        AtoiSafe(First(Get(after, s, "start"))), AtoiSafe(First(Get(after, s, "limit"))))
      == (Render(ParseIp(p.ipStart).value), Render(ParseIp(p.ipEnd).value))
  {
    hide ApplyDhcp, DhcpWrites, IfaceIp, IfaceMask, StartLimitToRange, ParseIp, Busy, AtoiSafe, StartLimit;
    OwnPool(c, st, net, svc, drop, p);
    var at := PoolAt(p, net);
    PoolAtFits(p, net);
    AtoiOfItoa(at.start);
    AtoiOfItoa(at.limit);
    RangeOfStartLimit(IfaceIp(net, p.iface), IfaceMask(net, p.iface), p.ipStart, p.ipEnd);
  }

  // ---- idempotence ----

  lemma StockPatchKeepsMarker(iface: string, busy: set<string>, dropped: bool, opts: Opts)
    ensures Wanted(opts, StockPatch(iface, busy, dropped), MANAGED_BY) == OptGet(opts, MANAGED_BY)
  {
  }

  /** One section of the configuration is the same after the second `apply`. */
  lemma AppliedTwiceAt(c: Config, st: Dhcp, net: Config, svc: Service, s: string, o: Opt)
    requires !MainDhcp(s, o)
    ensures var once := ApplyDhcp(c, st, net, svc, {});
      var twice := ApplyDhcp(once, st, net, svc, {});
      (s in twice <==> s in once) && (s in once ==> twice[s].typ == once[s].typ && Get(twice, s, o) == Get(once, s, o))
  {
    hide DhcpWrites, ApplyDhcp, Busy, StockPatch, FinalPatch, FinalType;
    var once := ApplyDhcp(c, st, net, svc, {});
    if s in Names(DhcpWrites(st, net)) {
      ApplyWanted(c, st, net, svc, {}, s, o);
      ApplyWanted(once, st, net, svc, {}, s, o);
    } else {
      ApplyOther(c, st, net, svc, {}, s, o);
      ApplyOther(c, st, net, svc, {}, s, MANAGED_BY);
      ApplyOther(c, st, net, svc, {}, s, "interface");
      ApplyOther(once, st, net, svc, {}, s, o);
      if s in once {
        StockPatchKeepsMarker(First(Get(c, s, "interface")), Busy(st.servers), false, c[s].opts);
        StockKeepsInterface(First(Get(c, s, "interface")), Busy(st.servers), c[s].opts);
      }
    }
  }

  lemma StockKeepsInterface(iface: string, busy: set<string>, opts: Opts)
    ensures Wanted(opts, StockPatch(iface, busy, false), "interface") == OptGet(opts, "interface")
  {
  }

  lemma {:induction false} PatchLacks(ws: seq<Write>, s: string, o: Opt)
    requires forall w :: w in ws ==> o !in w.patch
    ensures o !in FinalPatch(ws, s)
  {
    if ws != [] {
      assert ws[|ws| - 1] in ws;
      PatchLacks(ws[..|ws| - 1], s, o);
    }
  }

  /** Which daemon is chosen: an odhcpd section that was there before is told, any other
      keeps what it had. */
  lemma MainDhcpAfter(c: Config, st: Dhcp, net: Config, svc: Service)
    ensures var once := ApplyDhcp(c, st, net, svc, {});
      "odhcpd" in once ==>
        Get(once, "odhcpd", "maindhcp") ==
        if "odhcpd" in c && svc.Dnsmasq? then ["0"]
        else if "odhcpd" in c && svc.Odhcpd? && AnyServing(st.servers) then ["1"]
        else Get(c, "odhcpd", "maindhcp")
  {
    hide DhcpWrites, Busy, StockPatch, Project, SelectServer, RetireStock, AnyServing, FinalPatch, FinalType, Overlay;
    var ws, s := DhcpWrites(st, net), "odhcpd";
    var c1 := Project(c, ws, MARKER);
    var c2 := RetireStock(c1, c, ws, Busy(st.servers), {});
    ProjectAt(c, ws, MARKER, s);
    RetireAt(c1, c, ws, Busy(st.servers), {}, s, "maindhcp");
    SelectAt(c2, c, svc, AnyServing(st.servers), s, "maindhcp");
    WritesAreProper(st, net);
    PatchLacks(ws, s, "maindhcp");
    OverlayGet(OldOpts(c, s), FinalPatch(ws, s), "maindhcp");
    if s in c2 && s in c {
      StockKeepsMain(First(Get(c, s, "interface")), Busy(st.servers), c[s].opts);
    }
  }

  lemma StockKeepsMain(iface: string, busy: set<string>, opts: Opts)
    ensures Wanted(opts, StockPatch(iface, busy, false), "maindhcp") == OptGet(opts, "maindhcp")
  {
  }

  /** The save makes a section of the name odhcpd, which there was not, while a daemon
      is there to be chosen. */
  predicate ChoosesLate(c: Config, st: Dhcp, net: Config, svc: Service) {
    "odhcpd" !in c && "odhcpd" in Names(DhcpWrites(st, net)) && (svc.Dnsmasq? || (svc.Odhcpd? && AnyServing(st.servers)))
  }

  /** Projecting the same state again, with nothing dropped in between, leaves the
      DHCP configuration as it is: pools, option lists, tags, placeholders and
      white-list addresses included. The one exception is a section that the first
      projection calls odhcpd: only the second takes it for that of the daemon. */
  lemma ApplyDhcpTwice(c: Config, st: Dhcp, net: Config, svc: Service)
    ensures var once := ApplyDhcp(c, st, net, svc, {});
      ApplyDhcp(once, st, net, svc, {}) == once <==> !ChoosesLate(c, st, net, svc)
  {
    hide DhcpWrites, ApplyDhcp, AnyServing;
    var once := ApplyDhcp(c, st, net, svc, {});
    var twice := ApplyDhcp(once, st, net, svc, {});
    MainDhcpAfter(c, st, net, svc);
    MainDhcpAfter(once, st, net, svc);
    DaemonSection(c, st, net, svc);
    if !ChoosesLate(c, st, net, svc) {
      forall s ensures (s in twice <==> s in once) && (s in once ==> twice[s].typ == once[s].typ) {
        AppliedTwiceAt(c, st, net, svc, s, "");
      }
      forall s, o | s in twice ensures Get(twice, s, o) == Get(once, s, o) {
        if !MainDhcp(s, o) {
          AppliedTwiceAt(c, st, net, svc, s, o);
        }
      }
      ConfigExtensional(twice, once);
    } else {
      AppliedTwiceAt(c, st, net, svc, "odhcpd", "");
    }
  }

  lemma DaemonSection(c: Config, st: Dhcp, net: Config, svc: Service)
    ensures "odhcpd" in Names(DhcpWrites(st, net)) ==> "odhcpd" in ApplyDhcp(c, st, net, svc, {})
    ensures "odhcpd" in ApplyDhcp(c, st, net, svc, {}) ==> "odhcpd" in c || "odhcpd" in Names(DhcpWrites(st, net))
  {
    hide DhcpWrites, ApplyDhcp;
    if "odhcpd" in Names(DhcpWrites(st, net)) {
      ApplyWanted(c, st, net, svc, {}, "odhcpd", "");
    } else {
      ApplyOther(c, st, net, svc, {}, "odhcpd", "");
    }
  }

  // ---- the network configuration ----

  lemma {:induction false} RoutesStamped(rs: seq<Route>)
    ensures AllStamped(RouteWrites(rs), MARKER)
  {
    if rs != [] {
      RoutesStamped(rs[..|rs| - 1]);
      hide RouteWrites;
      assert RoutePatch(rs[|rs| - 1])[MANAGED_BY] == [MARKER];
    }
  }

  lemma {:induction false} RulesStamped(ps: seq<PolicyRule>)
    ensures AllStamped(RuleWrites(ps), MARKER)
  {
    if ps != [] {
      RulesStamped(ps[..|ps| - 1]);
      assert RulePatch(ps[|ps| - 1])[MANAGED_BY] == [MARKER];
    }
  }

  lemma NetWritesStamped(st: Dhcp)
    ensures AllStamped(NetWrites(st), MARKER)
  {
    RoutesStamped(st.routes);
    RulesStamped(st.rules);
  }

  // ---- the whole of `apply`, twice ----

  /** Two network configurations give the pools the same addresses to work with. */
  ghost predicate SameInterfaces(st: Dhcp, m: Config, n: Config) {
    forall s :: s in st.servers ==> IfaceIp(m, s.iface) == IfaceIp(n, s.iface) && IfaceMask(m, s.iface) == IfaceMask(n, s.iface)
  }

  /** The pools' interfaces are none of the sections that `apply` writes or collects. */
  ghost predicate InterfacesApart(st: Dhcp, net: Config) {
    forall s :: s in st.servers ==> s.iface !in Names(NetWrites(st)) && s.iface !in Marked(net, MARKER)
  }

  lemma InterfaceUntouched(st: Dhcp, net: Config, iface: string)
    requires iface !in Names(NetWrites(st)) && iface !in Marked(net, MARKER)
    ensures IfaceIp(ApplyNet(net, st), iface) == IfaceIp(net, iface)
    ensures IfaceMask(ApplyNet(net, st), iface) == IfaceMask(net, iface)
  {
    hide NetWrites, Project;
    ProjectAt(net, NetWrites(st), MARKER, iface);
  }

  lemma ApartMeansSame(st: Dhcp, net: Config)
    requires InterfacesApart(st, net)
    ensures SameInterfaces(st, ApplyNet(net, st), net)
  {
    hide IfaceIp, IfaceMask, NetWrites, ApplyNet;
    forall s | s in st.servers
      ensures IfaceIp(ApplyNet(net, st), s.iface) == IfaceIp(net, s.iface)
        && IfaceMask(ApplyNet(net, st), s.iface) == IfaceMask(net, s.iface)
    {
      InterfaceUntouched(st, net, s.iface);
    }
  }

  lemma {:induction false} ServerWritesAgree(servers: seq<DhcpServer>, st: Dhcp, m: Config, n: Config)
    requires SameInterfaces(st, m, n) && forall s :: s in servers ==> s in st.servers
    ensures AllServerWrites(servers, st, m) == AllServerWrites(servers, st, n)
  {
    hide IfaceIp, IfaceMask, Expanded, ExcludedWrites, StartLimit, ClasslessPair, ClasslessValue, LeaseTime, Busy;
    if servers != [] {
      var s := servers[|servers| - 1];
      ServerWritesAgree(servers[..|servers| - 1], st, m, n);
      assert s in st.servers;
      assert PoolAt(s, m) == PoolAt(s, n);
      assert PoolOptions(s, st, m) == PoolOptions(s, st, n);
    }
  }

  lemma {:induction false} FirstServingIn(servers: seq<DhcpServer>, iface: string, any: bool)
    ensures FirstServing(servers, iface, any).Some? ==> FirstServing(servers, iface, any).value in servers
  {
    if servers != [] {
      FirstServingIn(servers[1..], iface, any);
    }
  }

  lemma {:induction false} LeaseWritesAgree(ls: seq<StaticLease>, st: Dhcp, m: Config, n: Config)
    requires SameInterfaces(st, m, n)
    ensures AllLeaseWrites(ls, st, m) == AllLeaseWrites(ls, st, n)
  {
    hide IfaceIp, IfaceMask, ClasslessPair, ClasslessValue, DnsSafeHostname, GatewayAndDns;
    if ls != [] {
      var l := ls[|ls| - 1];
      LeaseWritesAgree(ls[..|ls| - 1], st, m, n);
      FirstServingIn(st.servers, l.iface, true);
      FirstServingIn(st.servers, l.iface, false);
      assert TagOptions(l, st, m) == TagOptions(l, st, n);
    }
  }

  lemma WritesAgree(st: Dhcp, m: Config, n: Config)
    requires SameInterfaces(st, m, n)
    ensures DhcpWrites(st, m) == DhcpWrites(st, n)
  {
    ServerWritesAgree(st.servers, st, m, n);
    LeaseWritesAgree(st.statics, st, m, n);
  }

  lemma ApplyDependsOnWrites(c: Config, st: Dhcp, m: Config, n: Config, svc: Service)
    requires DhcpWrites(st, m) == DhcpWrites(st, n)
    ensures ApplyDhcp(c, st, m, svc, {}) == ApplyDhcp(c, st, n, svc, {})
  {
    hide DhcpWrites, Project, RetireStock, SelectServer, Busy, AnyServing;
  }

  /** `apply` run twice on the same state is `apply` run once, for both files, with the
      one exception above; the routes and rules must leave the addresses of the pools'
      interfaces alone, as they do when the sections have different names. */
  lemma ApplyTwice(c: Config, st: Dhcp, net: Config, svc: Service)
    requires SameInterfaces(st, ApplyNet(net, st), net)
    ensures var c1, n1 := ApplyDhcp(c, st, net, svc, {}), ApplyNet(net, st);
      ApplyNet(n1, st) == n1 && (ApplyDhcp(c1, st, n1, svc, {}) == c1 <==> !ChoosesLate(c, st, net, svc))
  {
    hide DhcpWrites, ApplyDhcp, NetWrites, SameInterfaces, ChoosesLate;
    var n1 := ApplyNet(net, st);
    NetWritesStamped(st);
    ProjectTwice(net, NetWrites(st), MARKER);
    WritesAgree(st, n1, net);
    ApplyDhcpTwice(c, st, net, svc);
    ApplyDependsOnWrites(ApplyDhcp(c, st, net, svc, {}), st, n1, net, svc);
  }

  // ---- inputs that show the failures ----

  function OnlyPool(p: DhcpServer): Dhcp {
    Dhcp([p], [], Acl(ACL_BLACKLIST, []), [], [], "")
  }

  lemma OnlyPoolWrites(p: DhcpServer, net: Config)
    requires Serving(p) && p.exclude == []
    ensures DhcpWrites(OnlyPool(p), net) == [PoolWrite(p, OnlyPool(p), net)]
  {
    hide PoolWrite, Expanded;
    var st := OnlyPool(p);
    NothingExpanded();
    assert ExcludedWrites(UciName(p.id), []) == [];
    assert ServerWrites(p, st, net) == [PoolWrite(p, st, net)];
    assert [p][..0] == [] && [] + [PoolWrite(p, st, net)] == [PoolWrite(p, st, net)];
    assert AllServerWrites([], st, net) == [];
    assert AllServerWrites([p], st, net) == [PoolWrite(p, st, net)];
  }

  lemma NothingExpanded()
    ensures Expanded([]) == []
  {
  }

  function SilencedLan(): Config {
    map["old" := Section("dhcp", map["interface" := ["lan"], "ignore" := ["1"]])]
  }

  /** A stock section deleted by the user that silences the pool put in its place. */
  lemma DroppedSectionSilences(p: DhcpServer, net: Config, svc: Service)
    requires Serving(p) && p.iface == "lan" && p.exclude == [] && UciName(p.id) != "old"
    ensures var after := ApplyDhcp(SilencedLan(), OnlyPool(p), net, svc, {"old"});
      OnIface(after, "old", "lan") && Ignored(after, "old") && OnIface(after, UciName(p.id), "lan") && HasRange(after, UciName(p.id))
  {
    hide ApplyDhcp, PoolPatch, DhcpWrites, UciName;
    var st := OnlyPool(p);
    OnlyPoolWrites(p, net);
    assert Names(DhcpWrites(st, net)) == {UciName(p.id)};
    assert "lan" in Busy(st.servers);
    assert Stock(SilencedLan(), DhcpWrites(st, net), "old");
    IgnoreSurvivesOnlyOnDropped(SilencedLan(), st, net, svc, {"old"}, "lan", "old");
    ServedRangesAreThePools(SilencedLan(), st, net, svc, {"old"}, "lan", UciName(p.id));
  }

  /** An interface at a, in a network of 256 addresses. */
  function LanAt(a: u32): Config
    requires Render(a) != "" && PrefixToMask(24) != ""
  {
    map["lan" := Section("interface", map["ipaddr" := [Render(a)], "netmask" := [PrefixToMask(24)]])]
  }

  lemma LanReads(a: u32)
    ensures Render(a) != "" && PrefixToMask(24) != ""
    ensures IfaceIp(LanAt(a), "lan") == Render(a) && IfaceMask(LanAt(a), "lan") == PrefixToMask(24)
  {
    hide Render, PrefixToMask, TrimSpace, IndexOf;
    RenderNonEmpty(a);
    RenderNonEmpty(MaskOf(24));
    PrefixToMaskIsMask(24);
    RenderTrimmed(a);
    RenderTrimmed(MaskOf(24));
    RenderLacks(a, '/');
    IndexOfNone(Render(a), '/');
  }

  /** A pool outside the network of its interface is read back as another range. */
  lemma OtherNetworkMisread(p: DhcpServer, a: u32, s: u32, e: u32)
    requires p.iface == "lan" && p.ipStart == Render(s) && p.ipEnd == Render(e) && s <= e && s / 256 != a / 256
    ensures Render(a) != "" && PrefixToMask(24) != ""
    ensures var at := PoolAt(p, LanAt(a));
      StartLimitToRange(Render(a), PrefixToMask(24), at.start, at.limit) != (Render(s), Render(e))
  {
    hide Render, PrefixToMask, ParseIp, IfaceIp, IfaceMask, NetworkBase, Pow2, BitAnd, StartLimitToRange;
    LanReads(a);
    ParseOfRender(s);
    ParseOfRender(e);
    Two8();
    BaseUnderPrefix(a, 24);
    SameSubnetIsSameQuotient(s, a, 24);
    ParseOfRender(RoundDown(a, 256));
    FallbackDecodes(p, LanAt(a));
    assert s - s % 256 == s / 256 * 256 && a - a % 256 == a / 256 * 256;
  }

  lemma Two8()
    ensures Pow2(8) == 256
  {
  }
}
