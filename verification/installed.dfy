/** What a user asked for and what is in the DHCP configuration after `apply`: every
    reservation with its tag, every refused client, every excluded address. */
module Installed {
  import opened Text
  import opened Uci
  import opened Projection
  import opened Sidecar
  import opened NetUtil
  import opened Addresses
  import opened DhcpSpec
  import opened Served
  import opened Whitelist
  import Ownership

  /** A wanted section holds what was wanted, whatever it held before. */
  lemma WantedHolds(c: Config, st: Dhcp, net: Config, svc: Service, drop: set<string>, w: Write, o: Opt)
    requires Consistent(DhcpWrites(st, net)) && w in DhcpWrites(st, net) && o in w.patch && !MainDhcp(w.sec, o)
    ensures w.sec in ApplyDhcp(c, st, net, svc, drop) && ApplyDhcp(c, st, net, svc, drop)[w.sec].typ == w.typ
    ensures Get(ApplyDhcp(c, st, net, svc, drop), w.sec, o) == w.patch[o]
  {
    hide DhcpWrites, ApplyDhcp;
    ConsistentFinal(DhcpWrites(st, net), w);
    ApplyWanted(c, st, net, svc, drop, w.sec, o);
  }

  // ---- reservations ----

  lemma {:induction false} LeaseAmong(ls: seq<StaticLease>, st: Dhcp, net: Config, l: StaticLease, w: Write)
    requires l in ls && w in LeaseWrites(l, st, net)
    ensures w in AllLeaseWrites(ls, st, net)
  {
    hide LeaseWrites;
    var init, last := ls[..|ls| - 1], ls[|ls| - 1];
    assert ls == init + [last];
    if l != last {
      LeaseAmong(init, st, net, l, w);
    }
  }

  lemma LeaseWanted(st: Dhcp, net: Config, l: StaticLease, w: Write)
    requires l in st.statics && w in LeaseWrites(l, st, net)
    ensures w in DhcpWrites(st, net)
  {
    hide AllServerWrites, AllLeaseWrites, AclWrites, LeaseWrites;
    LeaseAmong(st.statics, st, net, l, w);
  }

  function HostWrite(l: StaticLease, st: Dhcp, net: Config): Write {
    var id := UciName(l.id);
    Write(id, "host", HostPatch(l.mac, l.ip)["name" := One(DnsSafeHostname(l.hostname))]
                                            ["tag" := if TagOptions(l, st, net) == [] then [] else [TagName(id)]])
  }

  function TagWrite(l: StaticLease, st: Dhcp, net: Config): Write {
    Write(TagName(UciName(l.id)), "tag", map["managed_by" := [MARKER], "dhcp_option" := TagOptions(l, st, net)])
  }

  lemma HostAmongWrites(l: StaticLease, st: Dhcp, net: Config)
    requires l.enabled && l.managed
    ensures HostWrite(l, st, net) in LeaseWrites(l, st, net)
    ensures TagOptions(l, st, net) != [] ==>
      TagWrite(l, st, net) in LeaseWrites(l, st, net)
  {
    hide TagOptions, UciName, HostPatch, DnsSafeHostname;
  }

  lemma HostReads(l: StaticLease, st: Dhcp, net: Config)
    ensures var p := HostWrite(l, st, net).patch;
      "mac" in p && p["mac"] == One(l.mac) && "ip" in p && p["ip"] == One(l.ip)
      && "tag" in p && p["tag"] == if TagOptions(l, st, net) == [] then [] else [TagName(UciName(l.id))]
  {
    hide TagOptions, UciName, DnsSafeHostname;
  }

  lemma NotMainDhcp(s: string, o: Opt)
    requires o == "mac" || o == "ip" || o == "tag" || o == "dhcp_option"
    ensures !MainDhcp(s, o)
  {
  }

  /** Each enabled reservation is a host section with its MAC and address; and when it
      has options of its own, its tag names a tag section that holds exactly those. */
  lemma ReservationInstalled(c: Config, st: Dhcp, net: Config, svc: Service, drop: set<string>, l: StaticLease)
    requires Consistent(DhcpWrites(st, net)) && l in st.statics && l.enabled && l.managed
    ensures var after, s := ApplyDhcp(c, st, net, svc, drop), UciName(l.id);
      s in after && after[s].typ == "host" && Get(after, s, "mac") == One(l.mac) && Get(after, s, "ip") == One(l.ip)
    ensures Get(ApplyDhcp(c, st, net, svc, drop), UciName(l.id), "tag") ==
      if TagOptions(l, st, net) == [] then [] else [TagName(UciName(l.id))]
    ensures TagOptions(l, st, net) != [] ==>
      TagName(UciName(l.id)) in ApplyDhcp(c, st, net, svc, drop) &&
      ApplyDhcp(c, st, net, svc, drop)[TagName(UciName(l.id))].typ == "tag" &&
      Get(ApplyDhcp(c, st, net, svc, drop), TagName(UciName(l.id)), "dhcp_option") == TagOptions(l, st, net)
  {
    hide DhcpWrites, ApplyDhcp, LeaseWrites, TagOptions, MainDhcp, HostPatch, UciName, DnsSafeHostname;
    var w := HostWrite(l, st, net);
    HostAmongWrites(l, st, net);
    HostReads(l, st, net);
    LeaseWanted(st, net, l, w);
    NotMainDhcp(w.sec, "mac");
    NotMainDhcp(w.sec, "ip");
    NotMainDhcp(w.sec, "tag");
    WantedHolds(c, st, net, svc, drop, w, "mac");
    WantedHolds(c, st, net, svc, drop, w, "ip");
    WantedHolds(c, st, net, svc, drop, w, "tag");
    if TagOptions(l, st, net) != [] {
      var t := TagWrite(l, st, net);
      LeaseWanted(st, net, l, t);
      NotMainDhcp(t.sec, "dhcp_option");
      WantedHolds(c, st, net, svc, drop, t, "dhcp_option");
    }
  }

  // ---- refused clients ----

  lemma {:induction false} DeniedAmong(es: seq<AclEntry>, e: AclEntry)
    requires e in es && Listed(e)
    ensures Write(UciName(e.id), "host", HostPatch(e.mac, "ignore")) in DenyWrites(es)
  {
    hide UciName, HostPatch;
    var init, last := es[..|es| - 1], es[|es| - 1];
    assert es == init + [last];
    if e != last {
      DeniedAmong(init, e);
    }
  }

  /** Off the white list mode, each listed MAC is refused. */
  lemma RefusalInstalled(c: Config, st: Dhcp, net: Config, svc: Service, drop: set<string>, e: AclEntry)
    requires Consistent(DhcpWrites(st, net)) && st.acl.mode != ACL_WHITELIST && e in st.acl.entries && Listed(e)
    ensures var after, s := ApplyDhcp(c, st, net, svc, drop), UciName(e.id);
      s in after && after[s].typ == "host" && Get(after, s, "mac") == One(e.mac) && Get(after, s, "ip") == ["ignore"]
  {
    hide ApplyDhcp, MainDhcp, UciName, AllServerWrites, AllLeaseWrites, DenyWrites;
    var w := Write(UciName(e.id), "host", HostPatch(e.mac, "ignore"));
    DeniedAmong(st.acl.entries, e);
    assert w in DhcpWrites(st, net);
    hide DhcpWrites;
    NotMainDhcp(w.sec, "mac");
    NotMainDhcp(w.sec, "ip");
    WantedHolds(c, st, net, svc, drop, w, "mac");
    WantedHolds(c, st, net, svc, drop, w, "ip");
  }

  // ---- the white list ----

  lemma GrantAmong(st: Dhcp, net: Config, w: Write)
    requires w in AclWrites(st)
    ensures w in DhcpWrites(st, net)
  {
    hide AllServerWrites, AllLeaseWrites, AclWrites;
  }

  lemma GrantWriteAt(st: Dhcp, net: Config, k: nat)
    requires st.acl.mode == ACL_WHITELIST && k < |Grants(st)|
    ensures k < |ListedOf(st.acl.entries)|
    ensures GrantWrite(ListedOf(st.acl.entries)[k], Grants(st)[k]) in DhcpWrites(st, net)
  {
    hide DhcpWrites, ListedOf, Granted, InitialAlloc, UsedIps, AllowWrites, GrantWrite;
    WritesGranted(st.acl.entries, InitialAlloc(st.servers, UsedIps(st)));
    GrantAmong(st, net, AclWrites(st)[k]);
  }

  /** In white-list mode the first listed clients, one for each address handed out, are
      hosts with their MAC and that address, in the order of the list. */
  lemma GrantInstalled(c: Config, st: Dhcp, net: Config, svc: Service, drop: set<string>, k: nat)
    requires Consistent(DhcpWrites(st, net)) && st.acl.mode == ACL_WHITELIST && k < |Grants(st)|
    ensures k < |ListedOf(st.acl.entries)|
    ensures var after, e := ApplyDhcp(c, st, net, svc, drop), ListedOf(st.acl.entries)[k];
      var s := UciName(e.id);
      s in after && after[s].typ == "host" && Get(after, s, "mac") == One(e.mac) && Get(after, s, "ip") == [Render(Grants(st)[k])]
  {
    hide ApplyDhcp, DhcpWrites, MainDhcp, UciName, ListedOf, Grants, Render;
    GrantWriteAt(st, net, k);
    var e, u := ListedOf(st.acl.entries)[k], Grants(st)[k];
    var w := GrantWrite(e, u);
    RenderNonEmpty(u);
    NotMainDhcp(w.sec, "mac");
    NotMainDhcp(w.sec, "ip");
    WantedHolds(c, st, net, svc, drop, w, "mac");
    WantedHolds(c, st, net, svc, drop, w, "ip");
  }

  /** No other listed client is written: what carries the tool's marker afterwards is
      what the pools, the reservations and these clients are called. */
  lemma UngrantedLeftOut(c: Config, st: Dhcp, net: Config, svc: Service, drop: set<string>)
    requires st.acl.mode == ACL_WHITELIST
    ensures var ls := ListedOf(st.acl.entries);
      |Grants(st)| <= |ls| && Marked(ApplyDhcp(c, st, net, svc, drop), MARKER) ==
        Names(AllServerWrites(st.servers, st, net)) + Names(AllLeaseWrites(st.statics, st, net))
        + (set k: nat | k < |Grants(st)| :: UciName(ls[k].id))
  {
    hide ApplyDhcp, UciName, ListedOf, Granted, InitialAlloc, UsedIps, AllowWrites, HostPatch, AllServerWrites, AllLeaseWrites;
    var ws, us, ls := AclWrites(st), Grants(st), ListedOf(st.acl.entries);
    WritesGranted(st.acl.entries, InitialAlloc(st.servers, UsedIps(st)));
    assert Names(ws) == set k: nat | k < |us| :: UciName(ls[k].id) by {
      forall s ensures s in Names(ws) <==> exists k: nat :: k < |us| && s == UciName(ls[k].id) {
        if s in Names(ws) {
          var k: nat :| k < |ws| && ws[k].sec == s;
          assert k < |us|;
        }
      }
    }
    Ownership.DhcpMarks(c, st, net, svc, drop, MARKER_DNS);
  }

  // ---- excluded addresses ----

  lemma {:induction false} ExcludedAmong(name: string, ips: seq<string>, ip: string)
    requires ip in ips
    ensures ExcludedWrite(name, ip) in ExcludedWrites(name, ips)
  {
    hide ExcludedWrite;
    var init, last := ips[..|ips| - 1], ips[|ips| - 1];
    assert ips == init + [last];
    if ip != last {
      ExcludedAmong(name, init, ip);
    }
  }

  lemma {:induction false} ServerAmong(ss: seq<DhcpServer>, st: Dhcp, net: Config, s: DhcpServer, w: Write)
    requires s in ss && w in ServerWrites(s, st, net)
    ensures w in AllServerWrites(ss, st, net)
  {
    hide ServerWrites;
    var init, last := ss[..|ss| - 1], ss[|ss| - 1];
    assert ss == init + [last];
    if s != last {
      ServerAmong(init, st, net, s, w);
    }
  }

  /** Each excluded address of an enabled pool is reserved for a made-up MAC. */
  lemma ExclusionInstalled(c: Config, st: Dhcp, net: Config, svc: Service, drop: set<string>, s: DhcpServer, ip: string)
    requires Consistent(DhcpWrites(st, net)) && s in st.servers && Serving(s) && ip in Expanded(s.exclude) && ip != ""
    ensures var after, x := ApplyDhcp(c, st, net, svc, drop), UciName(UciName(s.id) + "_x_" + ip);
      x in after && after[x].typ == "host" && Get(after, x, "ip") == [ip] && Get(after, x, "mac") == One(PlaceholderMac(ip))
  {
    hide ApplyDhcp, MainDhcp, UciName, PoolWrite, ExcludedWrites, Expanded, PlaceholderMac, AllServerWrites, AllLeaseWrites, AclWrites;
    var w := ExcludedWrite(UciName(s.id), ip);
    ExcludedAmong(UciName(s.id), Expanded(s.exclude), ip);
    assert w in ServerWrites(s, st, net);
    ServerAmong(st.servers, st, net, s, w);
    assert w in DhcpWrites(st, net);
    hide DhcpWrites;
    NotMainDhcp(w.sec, "mac");
    NotMainDhcp(w.sec, "ip");
    WantedHolds(c, st, net, svc, drop, w, "mac");
    WantedHolds(c, st, net, svc, drop, w, "ip");
  }

  lemma HexInjective(a: nat, b: nat)
    requires a < 16 && b < 16 && Hex(a) == Hex(b)
    ensures a == b
  {
  }

  lemma HexByteInjective(a: nat, b: nat)
    requires a < 256 && b < 256 && HexByte(a) == HexByte(b)
    ensures a == b
  {
    hide Hex;
    assert HexByte(a)[0] == HexByte(b)[0] && HexByte(a)[1] == HexByte(b)[1];
    HexInjective(a / 16, b / 16);
    HexInjective(a % 16, b % 16);
  }

  /** Different addresses get different made-up MACs. */
  lemma PlaceholderInjective(u: u32, v: u32)
    requires PlaceholderMac(Render(u)) == PlaceholderMac(Render(v))
    ensures u == v
  {
    hide Render, ParseIp, HexByte;
    ParseOfRender(u);
    ParseOfRender(v);
    OctetsQuad(u);
    OctetsQuad(v);
    PlaceholderParts(u);
    PlaceholderParts(v);
    HexByteInjective(Octet(u, 0), Octet(v, 0));
    HexByteInjective(Octet(u, 1), Octet(v, 1));
    HexByteInjective(Octet(u, 2), Octet(v, 2));
    HexByteInjective(Octet(u, 3), Octet(v, 3));
  }

  lemma PlaceholderParts(u: u32)
    requires ParseIp(Render(u)) == Some(u)
    ensures Octet(u, 0) < 256 && Octet(u, 1) < 256 && Octet(u, 2) < 256 && Octet(u, 3) < 256
    ensures var m := PlaceholderMac(Render(u));
      |m| == 17 && m[6..8] == HexByte(Octet(u, 0)) && m[9..11] == HexByte(Octet(u, 1))
      && m[12..14] == HexByte(Octet(u, 2)) && m[15..17] == HexByte(Octet(u, 3))
  {
    hide Render, ParseIp, Hex;
    OctetsQuad(u);
  }

  // ---- an input that shows a failure ----

  /** A reservation called odhcpd: the second projection takes its section for that of the
      daemon. */
  lemma HostCalledOdhcpd(st: Dhcp, net: Config, l: StaticLease)
    requires l in st.statics && l.enabled && l.managed && l.id == "odhcpd"
    ensures var once := ApplyDhcp(map[], st, net, Dnsmasq, {});
      ApplyDhcp(once, st, net, Dnsmasq, {}) != once
  {
    hide ApplyDhcp, DhcpWrites, LeaseWrites, TagOptions, HostPatch, UciName, DnsSafeHostname;
    var w := HostWrite(l, st, net);
    HostAmongWrites(l, st, net);
    LeaseWanted(st, net, l, w);
    UciNameIsName("odhcpd");
    ApplyDhcpTwice(map[], st, net, Dnsmasq);
  }
}
